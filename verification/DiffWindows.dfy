// Changed line ranges of a diff collapsed into a few line windows per file.

module DiffWindows {

  const MAX_LINE_RANGE := 200
  const MAX_WINDOWS_PER_FILE := 3
  const MERGE_DISTANCE := 5

  // A hunk on the new side: first line and number of lines.
  type Hunk = (int, int)

  datatype LineWindow = LineWindow(startLine: int, endLine: int)

  // ---- The computation ----

  // Positive-length hunks as inclusive ranges.
  function Ranges(hunks: seq<Hunk>): seq<LineWindow> {
    if hunks == [] then []
    else
      var (start, length) := hunks[|hunks| - 1];
      Ranges(hunks[..|hunks| - 1]) + if length <= 0 then [] else [LineWindow(start, start + length - 1)]
  }

  predicate Before(a: LineWindow, b: LineWindow) {
    a.startLine < b.startLine || (a.startLine == b.startLine && a.endLine <= b.endLine)
  }

  function Insert(w: LineWindow, ws: seq<LineWindow>): seq<LineWindow> {
    if ws == [] || Before(w, ws[0]) then [w] + ws else [ws[0]] + Insert(w, ws[1..])
  }

  // list.sort() on pairs
  function Sort(ws: seq<LineWindow>): seq<LineWindow> {
    if ws == [] then [] else Insert(ws[0], Sort(ws[1..]))
  }

  function MergeNext(merged: seq<LineWindow>, r: LineWindow): seq<LineWindow> {
    if merged != [] && r.startLine - merged[|merged| - 1].endLine <= MERGE_DISTANCE then
      var last := merged[|merged| - 1];
      merged[..|merged| - 1]
      + [LineWindow(last.startLine, if last.endLine >= r.endLine then last.endLine else r.endLine)]
    else merged + [r]
  }

  function Merge(ranges: seq<LineWindow>): seq<LineWindow> {
    if ranges == [] then [] else MergeNext(Merge(ranges[..|ranges| - 1]), ranges[|ranges| - 1])
  }

  function Clamp(w: LineWindow): LineWindow {
    if w.endLine - w.startLine + 1 > MAX_LINE_RANGE then LineWindow(w.startLine, w.startLine + MAX_LINE_RANGE - 1)
    else w
  }

  function ClampAll(ws: seq<LineWindow>): seq<LineWindow> {
    seq(|ws|, i requires 0 <= i < |ws| => Clamp(ws[i]))
  }

  function FirstWindows(ws: seq<LineWindow>): seq<LineWindow> {
    if |ws| <= MAX_WINDOWS_PER_FILE then ws else ws[..MAX_WINDOWS_PER_FILE]
  }

  function CollapseFile(hunks: seq<Hunk>): seq<LineWindow> {
    FirstWindows(ClampAll(Merge(Sort(Ranges(hunks)))))
  }

  // The file's entry, or None when it has no positive-length hunk.
  method CollapseHunks(rawHunks: seq<Hunk>) returns (found: bool, windows: seq<LineWindow>)
    ensures found <==> Ranges(rawHunks) != []
    ensures found ==> windows == CollapseFile(rawHunks)
  {
    var ranges := CollectRanges(rawHunks);
    if ranges == [] {
      return false, [];
    }
    ranges := Sort(ranges);
    var merged := MergeRanges(ranges);
    windows := ClampWindows(merged);
    windows := FirstWindows(windows);
    found := true;
  }

  method CollectRanges(rawHunks: seq<Hunk>) returns (ranges: seq<LineWindow>)
    ensures ranges == Ranges(rawHunks)
  {
    ranges := [];
    for i := 0 to |rawHunks|
      invariant ranges == Ranges(rawHunks[..i])
    {
      var (start, length) := rawHunks[i];
      assert rawHunks[..i + 1][..i] == rawHunks[..i];
      if length <= 0 {
        continue;
      }
      ranges := ranges + [LineWindow(start, start + length - 1)];
    }
    assert rawHunks[..|rawHunks|] == rawHunks;
  }

  // Each range extends the last merged one or starts another.
  method MergeRanges(ranges: seq<LineWindow>) returns (merged: seq<LineWindow>)
    ensures merged == Merge(ranges)
  {
    merged := [];
    for i := 0 to |ranges|
      invariant merged == Merge(ranges[..i])
    {
      MergeSnoc(ranges, i);
      merged := MergeOne(merged, ranges[i]);
    }
    assert ranges[..|ranges|] == ranges;
  }

  method MergeOne(merged: seq<LineWindow>, r: LineWindow) returns (after: seq<LineWindow>)
    ensures after == MergeNext(merged, r)
  {
    if merged != [] && r.startLine - merged[|merged| - 1].endLine <= MERGE_DISTANCE {
      var last := merged[|merged| - 1];
      var longer := LineWindow(last.startLine, if last.endLine >= r.endLine then last.endLine else r.endLine);
      after := merged[|merged| - 1 := longer];
      assert after == merged[..|merged| - 1] + [longer];
    } else {
      after := merged + [r];
    }
  }

  lemma {:induction false} MergeSnoc(ranges: seq<LineWindow>, i: nat)
    requires i < |ranges|
    ensures Merge(ranges[..i + 1]) == MergeNext(Merge(ranges[..i]), ranges[i])
  {
    assert ranges[..i + 1][..i] == ranges[..i];
  }

  method ClampWindows(merged: seq<LineWindow>) returns (windows: seq<LineWindow>)
    ensures windows == ClampAll(merged)
  {
    windows := [];
    for i := 0 to |merged|
      invariant windows == ClampAll(merged[..i])
    {
      var w := merged[i];
      var e := w.endLine;
      if e - w.startLine + 1 > MAX_LINE_RANGE {
        e := w.startLine + MAX_LINE_RANGE - 1;
      }
      windows := windows + [LineWindow(w.startLine, e)];
    }
    assert merged[..|merged|] == merged;
  }

  method CollapseDiffToWindows(hunksByFile: map<string, seq<Hunk>>) returns (out: map<string, seq<LineWindow>>)
    ensures out == WindowsByFile(hunksByFile)
  {
    out := map[];
    var todo := hunksByFile.Keys;
    while todo != {}
      invariant todo <= hunksByFile.Keys
      invariant out == map p | p in hunksByFile && p !in todo && Ranges(hunksByFile[p]) != [] ::
                CollapseFile(hunksByFile[p])
      decreases todo
    {
      var path :| path in todo;
      todo := todo - {path};
      var found, windows := CollapseHunks(hunksByFile[path]);
      if found {
        out := out[path := windows];
      }
    }
  }

  function WindowsByFile(hunksByFile: map<string, seq<Hunk>>): map<string, seq<LineWindow>> {
    map p | p in hunksByFile && Ranges(hunksByFile[p]) != [] :: CollapseFile(hunksByFile[p])
  }

  lemma {:induction false} RangesExist(hunks: seq<Hunk>)
    ensures Ranges(hunks) != [] <==> exists k :: 0 <= k < |hunks| && hunks[k].1 > 0
  {
    if hunks != [] {
      var n := |hunks| - 1;
      RangesExist(hunks[..n]);
      if k :| 0 <= k < |hunks| && hunks[k].1 > 0 {
        assert k < n ==> hunks[..n][k] == hunks[k];
      }
      if k :| 0 <= k < n && hunks[..n][k].1 > 0 {
        assert hunks[k] == hunks[..n][k];
      }
    }
  }

  // A file has an entry exactly if one of its hunks has a positive length, and
  // the entry is what its hunks collapse to.
  lemma {:induction false} EntriesExactly(hunksByFile: map<string, seq<Hunk>>, path: string)
    ensures path in WindowsByFile(hunksByFile)
       <==> path in hunksByFile && exists k :: 0 <= k < |hunksByFile[path]| && hunksByFile[path][k].1 > 0
    ensures path in WindowsByFile(hunksByFile) ==> WindowsByFile(hunksByFile)[path] == CollapseFile(hunksByFile[path])
  {
    if path in hunksByFile {
      RangesExist(hunksByFile[path]);
    }
  }

  // ---- What a window is: a maximal chain of covered lines ----

  // Line x is in some hunk.
  ghost predicate Covered(hunks: seq<Hunk>, x: int) {
    exists k :: 0 <= k < |hunks| && hunks[k].1 > 0 && hunks[k].0 <= x < hunks[k].0 + hunks[k].1
  }

  predicate Contains(w: LineWindow, x: int) {
    w.startLine <= x <= w.endLine
  }

  // Line x is in some window.
  predicate In(ws: seq<LineWindow>, x: int) {
    ws != [] && (Contains(ws[0], x) || In(ws[1..], x))
  }

  // From every covered line of the chain but the last, another is at most 5
  // lines on; and no covered line lies within 5 lines outside it.
  ghost predicate MaximalChain(ws: seq<LineWindow>, s: int, e: int) {
    && s <= e && In(ws, s) && In(ws, e)
    && (forall x | In(ws, x) && s <= x < e :: HasNext(ws, x, e))
    && (forall x | In(ws, x) :: !(s - MERGE_DISTANCE <= x < s) && !(e < x <= e + MERGE_DISTANCE))
  }

  ghost predicate HasNext(ws: seq<LineWindow>, x: int, e: int) {
    exists y :: x < y <= x + MERGE_DISTANCE && y <= e && In(ws, y)
  }

  ghost predicate AllProper(ws: seq<LineWindow>) {
    forall k | 0 <= k < |ws| :: ws[k].startLine <= ws[k].endLine
  }

  ghost predicate SortedByStart(ws: seq<LineWindow>) {
    forall i, j | 0 <= i < j < |ws| :: ws[i].startLine <= ws[j].startLine
  }

  // Windows in order, each more than 5 lines after the one before.
  ghost predicate Apart(ws: seq<LineWindow>) {
    AllProper(ws) && forall i, j | 0 <= i < j < |ws| :: ws[j].startLine - ws[i].endLine > MERGE_DISTANCE
  }

  // ---- Coverage ----

  lemma {:induction false} InAt(ws: seq<LineWindow>, k: nat, x: int)
    requires k < |ws| && Contains(ws[k], x)
    ensures In(ws, x)
  {
    if k > 0 {
      InAt(ws[1..], k - 1, x);
    }
  }

  lemma {:induction false} InIndex(ws: seq<LineWindow>, x: int) returns (k: nat)
    requires In(ws, x)
    ensures k < |ws| && Contains(ws[k], x)
  {
    if Contains(ws[0], x) {
      k := 0;
    } else {
      k := InIndex(ws[1..], x);
      k := k + 1;
    }
  }

  lemma {:induction false} InConcat(a: seq<LineWindow>, b: seq<LineWindow>, x: int)
    ensures In(a + b, x) <==> In(a, x) || In(b, x)
  {
    if a == [] {
      assert a + b == b;
    } else {
      InConcat(a[1..], b, x);
      assert (a + b)[1..] == a[1..] + b;
    }
  }

  lemma {:induction false} InSnoc(ws: seq<LineWindow>, w: LineWindow, x: int)
    ensures In(ws + [w], x) <==> In(ws, x) || Contains(w, x)
  {
    InConcat(ws, [w], x);
    assert [w][1..] == [];
  }

  lemma {:induction false} CoveredSnoc(hunks: seq<Hunk>, h: Hunk, x: int)
    ensures Covered(hunks + [h], x) <==> Covered(hunks, x) || (h.1 > 0 && h.0 <= x < h.0 + h.1)
  {
    var all := hunks + [h];
    if Covered(hunks, x) {
      var k :| 0 <= k < |hunks| && hunks[k].1 > 0 && hunks[k].0 <= x < hunks[k].0 + hunks[k].1;
      assert all[k] == hunks[k];
    }
    if h.1 > 0 && h.0 <= x < h.0 + h.1 {
      assert all[|hunks|] == h;
    }
    if Covered(all, x) {
      var k :| 0 <= k < |all| && all[k].1 > 0 && all[k].0 <= x < all[k].0 + all[k].1;
      assert k < |hunks| ==> hunks[k] == all[k];
    }
  }

  lemma {:induction false} RangesCover(hunks: seq<Hunk>, x: int)
    ensures AllProper(Ranges(hunks))
    ensures In(Ranges(hunks), x) <==> Covered(hunks, x)
  {
    if hunks != [] {
      var n := |hunks| - 1;
      var (start, length) := hunks[n];
      RangesCover(hunks[..n], x);
      CoveredSnoc(hunks[..n], hunks[n], x);
      assert hunks == hunks[..n] + [hunks[n]];
      InSnoc(Ranges(hunks[..n]), LineWindow(start, start + length - 1), x);
      assert Ranges(hunks[..n]) + [] == Ranges(hunks[..n]);
    }
  }

  lemma {:induction false} InsertFacts(w: LineWindow, ws: seq<LineWindow>, x: int)
    ensures In(Insert(w, ws), x) <==> Contains(w, x) || In(ws, x)
    ensures AllProper(ws) && w.startLine <= w.endLine ==> AllProper(Insert(w, ws))
    ensures Insert(w, ws) != [] && (Insert(w, ws)[0] == w || (ws != [] && Insert(w, ws)[0] == ws[0]))
    ensures SortedByStart(ws) ==> SortedByStart(Insert(w, ws))
    decreases |ws|
  {
    if ws == [] || Before(w, ws[0]) {
      assert ([w] + ws)[1..] == ws;
    } else {
      InsertFacts(w, ws[1..], x);
      var rest := Insert(w, ws[1..]);
      assert ([ws[0]] + rest)[1..] == rest;
    }
  }

  lemma {:induction false} SortFacts(ws: seq<LineWindow>, x: int)
    ensures In(Sort(ws), x) <==> In(ws, x)
    ensures AllProper(ws) ==> AllProper(Sort(ws))
    ensures SortedByStart(Sort(ws))
    ensures Sort(ws) == [] <==> ws == []
  {
    if ws != [] {
      SortFacts(ws[1..], x);
      InsertFacts(ws[0], Sort(ws[1..]), x);
    }
  }

  // ---- Merging ----

  // w runs from a covered line to a covered line without a jump of more than 5.
  ghost predicate ChainIn(rs: seq<LineWindow>, w: LineWindow) {
    && w.startLine <= w.endLine && In(rs, w.startLine) && In(rs, w.endLine)
    && forall x | In(rs, x) && w.startLine <= x < w.endLine :: HasNext(rs, x, w.endLine)
  }

  // What holds of the windows merged so far from the sorted ranges.
  ghost predicate MergedFrom(rs: seq<LineWindow>, ms: seq<LineWindow>) {
    && Apart(ms)
    && (ms == [] <==> rs == [])
    && (forall i | 0 <= i < |ms| :: ChainIn(rs, ms[i]))
    && (forall x | In(rs, x) :: In(ms, x))
    && (rs != [] ==> ms[|ms| - 1].startLine <= rs[|rs| - 1].startLine)
  }

  lemma {:induction false} NextSnoc(rs: seq<LineWindow>, r: LineWindow, x: int, e: int, f: int)
    requires HasNext(rs, x, e) && e <= f
    ensures HasNext(rs + [r], x, f)
  {
    var y :| x < y <= x + MERGE_DISTANCE && y <= e && In(rs, y);
    InSnoc(rs, r, y);
  }

  lemma {:induction false} NextIs(rs: seq<LineWindow>, r: LineWindow, x: int, y: int, f: int)
    requires x < y <= x + MERGE_DISTANCE && y <= f && Contains(r, y)
    ensures HasNext(rs + [r], x, f)
  {
    InSnoc(rs, r, y);
  }

  // A chain the new range starts after stays a chain.
  lemma {:induction false} OldChain(rs: seq<LineWindow>, r: LineWindow, w: LineWindow)
    requires ChainIn(rs, w) && w.endLine < r.startLine
    ensures ChainIn(rs + [r], w)
  {
    InSnoc(rs, r, w.startLine);
    InSnoc(rs, r, w.endLine);
    forall x | In(rs + [r], x) && w.startLine <= x < w.endLine ensures HasNext(rs + [r], x, w.endLine) {
      InSnoc(rs, r, x);
      NextSnoc(rs, r, x, w.endLine, w.endLine);
    }
  }

  lemma {:induction false} NewChain(rs: seq<LineWindow>, r: LineWindow)
    requires r.startLine <= r.endLine
    ensures ChainIn(rs + [r], r)
  {
    InSnoc(rs, r, r.startLine);
    InSnoc(rs, r, r.endLine);
    forall x | In(rs + [r], x) && r.startLine <= x < r.endLine ensures HasNext(rs + [r], x, r.endLine) {
      NextIs(rs, r, x, x + 1, r.endLine);
    }
  }

  // Joining the new range to a chain it starts inside, or at most 5 lines after.
  lemma {:induction false} JoinedChain(rs: seq<LineWindow>, r: LineWindow, w: LineWindow, f: int)
    requires ChainIn(rs, w) && r.startLine <= r.endLine
    requires w.startLine <= r.startLine <= w.endLine + MERGE_DISTANCE
    requires forall k | 0 <= k < |rs| :: rs[k].startLine <= r.startLine
    requires forall x | In(rs, x) :: x <= w.endLine
    requires f == if w.endLine >= r.endLine then w.endLine else r.endLine
    ensures ChainIn(rs + [r], LineWindow(w.startLine, f))
  {
    InSnoc(rs, r, w.startLine);
    InSnoc(rs, r, f);
    var q := InIndex(rs, w.endLine);
    forall x | In(rs + [r], x) && w.startLine <= x < f ensures HasNext(rs + [r], x, f) {
      InSnoc(rs, r, x);
      if x < r.endLine && r.startLine <= x {
        NextIs(rs, r, x, x + 1, f);
      } else if x < w.endLine {
        // a line of the new range below the chain's end is in the range that ends the chain
        if Contains(r, x) {
          InAt(rs, q, x);
        }
        NextSnoc(rs, r, x, w.endLine, f);
      } else {
        NextIs(rs, r, x, r.startLine, f);
      }
    }
  }

  lemma {:induction false} ApartEnds(ms: seq<LineWindow>, x: int)
    requires Apart(ms) && In(ms, x)
    ensures x <= ms[|ms| - 1].endLine
  {
    var k := InIndex(ms, x);
    if k < |ms| - 1 {
      assert ms[|ms| - 1].startLine - ms[k].endLine > MERGE_DISTANCE;
    }
  }

  lemma {:induction false} AppendStep(rs: seq<LineWindow>, ms: seq<LineWindow>, r: LineWindow)
    requires MergedFrom(rs, ms) && r.startLine <= r.endLine
    requires ms == [] || r.startLine - ms[|ms| - 1].endLine > MERGE_DISTANCE
    ensures MergedFrom(rs + [r], ms + [r])
  {
    forall i | 0 <= i < |ms| ensures r.startLine - ms[i].endLine > MERGE_DISTANCE && ChainIn(rs + [r], ms[i]) {
      InAt(ms, i, ms[i].endLine);
      ApartEnds(ms, ms[i].endLine);
      OldChain(rs, r, ms[i]);
    }
    NewChain(rs, r);
    forall x | In(rs + [r], x) ensures In(ms + [r], x) {
      InSnoc(rs, r, x);
      InSnoc(ms, r, x);
    }
  }

  lemma {:induction false} JoinCovers(rs: seq<LineWindow>, ms: seq<LineWindow>, r: LineWindow, x: int)
    requires MergedFrom(rs, ms) && ms != [] && In(rs + [r], x)
    requires ms[|ms| - 1].startLine <= r.startLine <= ms[|ms| - 1].endLine + MERGE_DISTANCE
    ensures In(MergeNext(ms, r), x)
  {
    var n, w, ms' := |ms| - 1, ms[|ms| - 1], MergeNext(ms, r);
    assert ms == ms[..n] + [w] && ms' == ms[..n] + [ms'[n]];
    InSnoc(rs, r, x);
    InSnoc(ms[..n], w, x);
    InSnoc(ms[..n], ms'[n], x);
  }

  lemma {:induction false} JoinChains(rs: seq<LineWindow>, ms: seq<LineWindow>, r: LineWindow, i: nat)
    requires MergedFrom(rs, ms) && i < |ms| && r.startLine <= r.endLine
    requires ms[|ms| - 1].startLine <= r.startLine <= ms[|ms| - 1].endLine + MERGE_DISTANCE
    requires forall k | 0 <= k < |rs| :: rs[k].startLine <= r.startLine
    ensures ChainIn(rs + [r], MergeNext(ms, r)[i])
  {
    var n := |ms| - 1;
    if i < n {
      OldChain(rs, r, ms[i]);
    } else {
      forall x | In(rs, x) ensures x <= ms[n].endLine { ApartEnds(ms, x); }
      JoinedChain(rs, r, ms[n], MergeNext(ms, r)[n].endLine);
    }
  }

  lemma {:induction false} JoinStep(rs: seq<LineWindow>, ms: seq<LineWindow>, r: LineWindow)
    requires MergedFrom(rs, ms) && ms != [] && r.startLine <= r.endLine
    requires r.startLine - ms[|ms| - 1].endLine <= MERGE_DISTANCE
    requires forall k | 0 <= k < |rs| :: rs[k].startLine <= r.startLine
    ensures MergedFrom(rs + [r], MergeNext(ms, r))
  {
    forall i | 0 <= i < |ms| ensures ChainIn(rs + [r], MergeNext(ms, r)[i]) {
      JoinChains(rs, ms, r, i);
    }
    forall x | In(rs + [r], x) ensures In(MergeNext(ms, r), x) {
      JoinCovers(rs, ms, r, x);
    }
  }

  // One more range in order of start, joined or appended, keeps all of that.
  lemma {:induction false} MergeStep(rs: seq<LineWindow>, ms: seq<LineWindow>, r: LineWindow)
    requires MergedFrom(rs, ms) && r.startLine <= r.endLine
    requires forall k | 0 <= k < |rs| :: rs[k].startLine <= r.startLine
    ensures MergedFrom(rs + [r], MergeNext(ms, r))
  {
    if ms != [] && r.startLine - ms[|ms| - 1].endLine <= MERGE_DISTANCE {
      JoinStep(rs, ms, r);
    } else {
      AppendStep(rs, ms, r);
    }
  }

  lemma {:induction false} MergeFacts(rs: seq<LineWindow>)
    requires AllProper(rs) && SortedByStart(rs)
    ensures MergedFrom(rs, Merge(rs))
  {
    if rs != [] {
      var n := |rs| - 1;
      MergeFacts(rs[..n]);
      assert rs == rs[..n] + [rs[n]];
      MergeStep(rs[..n], Merge(rs[..n]), rs[n]);
    }
  }

  // ---- Windows are exactly the maximal chains ----

  // A chain holding a line of another starts no earlier.
  lemma {:induction false} ChainsStartTogether(ws: seq<LineWindow>, s: int, e: int, s': int, e': int, x: int)
    requires MaximalChain(ws, s, e) && MaximalChain(ws, s', e') && s' <= e
    requires In(ws, x) && s <= x < s'
    ensures false
    decreases s' - x
  {
    assert HasNext(ws, x, e);
    var y :| x < y <= x + MERGE_DISTANCE && y <= e && In(ws, y);
    assert !(s' - MERGE_DISTANCE <= x < s');
    ChainsStartTogether(ws, s, e, s', e', y);
  }

  lemma {:induction false} ChainsMeetAreEqual(ws: seq<LineWindow>, s: int, e: int, s': int, e': int, x: int)
    requires MaximalChain(ws, s, e) && MaximalChain(ws, s', e')
    requires In(ws, x) && s <= x <= e && s' <= x <= e'
    ensures s == s' && e == e'
  {
    if s < s' {
      ChainsStartTogether(ws, s, e, s', e', s);
    } else if s' < s {
      ChainsStartTogether(ws, s', e', s, e, s');
    }
  }

  lemma {:induction false} MergedIsMaximal(rs: seq<LineWindow>, ms: seq<LineWindow>, i: nat)
    requires MergedFrom(rs, ms) && i < |ms|
    ensures MaximalChain(rs, ms[i].startLine, ms[i].endLine)
  {
    var w := ms[i];
    forall x | In(rs, x) ensures !(w.startLine - MERGE_DISTANCE <= x < w.startLine)
        && !(w.endLine < x <= w.endLine + MERGE_DISTANCE) {
      var k := InIndex(ms, x);
      if k < i {
        assert ms[i].startLine - ms[k].endLine > MERGE_DISTANCE;
      } else if k > i {
        assert ms[k].startLine - ms[i].endLine > MERGE_DISTANCE;
      }
    }
  }

  // Windows merged from a file's hunks, before clamping and capping.
  function Chains(hunks: seq<Hunk>): seq<LineWindow> {
    Merge(Sort(Ranges(hunks)))
  }

  lemma {:induction false} ChainsMerged(hunks: seq<Hunk>)
    ensures MergedFrom(Sort(Ranges(hunks)), Chains(hunks))
    ensures forall x :: In(Sort(Ranges(hunks)), x) <==> Covered(hunks, x)
    ensures Chains(hunks) == [] <==> Ranges(hunks) == []
  {
    forall x ensures In(Sort(Ranges(hunks)), x) <==> Covered(hunks, x) {
      RangesCover(hunks, x);
      SortFacts(Ranges(hunks), x);
    }
    RangesCover(hunks, 0);
    SortFacts(Ranges(hunks), 0);
    MergeFacts(Sort(Ranges(hunks)));
  }

  // The same notion stated on the hunks themselves.
  ghost predicate IsChain(hunks: seq<Hunk>, s: int, e: int) {
    && s <= e && Covered(hunks, s) && Covered(hunks, e)
    && (forall x | Covered(hunks, x) && s <= x < e ::
          exists y :: x < y <= x + MERGE_DISTANCE && y <= e && Covered(hunks, y))
    && (forall x | Covered(hunks, x) :: !(s - MERGE_DISTANCE <= x < s) && !(e < x <= e + MERGE_DISTANCE))
  }

  // Merging yields exactly the maximal chains of covered lines.
  lemma {:induction false} ChainsAreMaximal(hunks: seq<Hunk>, s: int, e: int)
    ensures LineWindow(s, e) in Chains(hunks) <==> IsChain(hunks, s, e)
    ensures Apart(Chains(hunks))
  {
    var rs, ms := Sort(Ranges(hunks)), Chains(hunks);
    ChainsMerged(hunks);
    if LineWindow(s, e) in ms {
      var i :| 0 <= i < |ms| && ms[i] == LineWindow(s, e);
      MergedIsMaximal(rs, ms, i);
    }
    if MaximalChain(rs, s, e) {
      var i := InIndex(ms, s);
      MergedIsMaximal(rs, ms, i);
      ChainsMeetAreEqual(rs, s, e, ms[i].startLine, ms[i].endLine, s);
      assert ms[i] == LineWindow(s, e);
    }
  }

  // ---- Order of hunks, and collapsing again ----

  lemma {:induction false} ApartSameMembers(a: seq<LineWindow>, b: seq<LineWindow>)
    requires Apart(a) && Apart(b) && forall w :: w in a <==> w in b
    ensures a == b
    decreases |a|
  {
    assert a != [] ==> a[0] in b;
    assert b != [] ==> b[0] in a;
    if a != [] && b != [] {
      ApartFirst(a, b);
      forall w ensures w in a[1..] <==> w in b[1..] {
        ApartTail(a, w);
        ApartTail(b, w);
      }
      ApartSameMembers(a[1..], b[1..]);
    }
  }

  lemma {:induction false} ApartFirst(a: seq<LineWindow>, b: seq<LineWindow>)
    requires Apart(a) && Apart(b) && a != [] && b != [] && forall w :: w in a <==> w in b
    ensures a[0] == b[0]
  {
    assert a[0] in b && b[0] in a;
    var i :| 0 <= i < |b| && b[i] == a[0];
    var j :| 0 <= j < |a| && a[j] == b[0];
    if i > 0 {
      assert b[i].startLine - b[0].endLine > MERGE_DISTANCE;
    }
    if j > 0 {
      assert a[j].startLine - a[0].endLine > MERGE_DISTANCE;
    }
  }

  lemma {:induction false} ApartTail(a: seq<LineWindow>, w: LineWindow)
    requires Apart(a) && a != []
    ensures w in a[1..] <==> w in a && w != a[0]
  {
    assert a == [a[0]] + a[1..];
    if w in a[1..] {
      var k :| 0 <= k < |a[1..]| && a[1..][k] == w;
      assert a[k + 1].startLine - a[0].endLine > MERGE_DISTANCE;
    }
  }

  // Only the covered lines matter: not the order of the hunks, nor how they are cut.
  lemma {:induction false} SameCoverSameWindows(h1: seq<Hunk>, h2: seq<Hunk>)
    requires forall x :: Covered(h1, x) <==> Covered(h2, x)
    ensures CollapseFile(h1) == CollapseFile(h2)
  {
    forall w ensures w in Chains(h1) <==> w in Chains(h2) {
      ChainsAreMaximal(h1, w.startLine, w.endLine);
      ChainsAreMaximal(h2, w.startLine, w.endLine);
      assert w == LineWindow(w.startLine, w.endLine);
      assert IsChain(h1, w.startLine, w.endLine) <==> IsChain(h2, w.startLine, w.endLine);
    }
    ChainsAreMaximal(h1, 0, 0);
    ChainsAreMaximal(h2, 0, 0);
    ApartSameMembers(Chains(h1), Chains(h2));
  }

  lemma {:induction false} PermutationKeepsCover(h1: seq<Hunk>, h2: seq<Hunk>, x: int)
    requires multiset(h1) == multiset(h2) && Covered(h1, x)
    ensures Covered(h2, x)
  {
    var k :| 0 <= k < |h1| && h1[k].1 > 0 && h1[k].0 <= x < h1[k].0 + h1[k].1;
    assert h1[k] in multiset(h2);
    var j :| 0 <= j < |h2| && h2[j] == h1[k];
  }

  lemma {:induction false} HunkOrderIrrelevant(h1: seq<Hunk>, h2: seq<Hunk>)
    requires multiset(h1) == multiset(h2)
    ensures CollapseFile(h1) == CollapseFile(h2)
  {
    forall x ensures Covered(h1, x) <==> Covered(h2, x) {
      if Covered(h1, x) { PermutationKeepsCover(h1, h2, x); }
      if Covered(h2, x) { PermutationKeepsCover(h2, h1, x); }
    }
    SameCoverSameWindows(h1, h2);
  }

  // The final windows: at most three, each of 1 to 200 lines, apart, each the
  // start of a maximal chain, and the lowest ones.
  ghost predicate Tidy(ws: seq<LineWindow>) {
    && Apart(ws) && |ws| <= MAX_WINDOWS_PER_FILE
    && forall i | 0 <= i < |ws| :: ws[i].endLine - ws[i].startLine + 1 <= MAX_LINE_RANGE
  }

  // w is the chain, or its first n lines if it has more.
  predicate FirstLines(w: LineWindow, chain: LineWindow, n: int) {
    && w.startLine == chain.startLine
    && (chain.endLine - chain.startLine < n ==> w.endLine == chain.endLine)
    && (chain.endLine - chain.startLine >= n ==> w.endLine - w.startLine + 1 == n)
  }

  lemma {:induction false} CollapseIsTidy(hunks: seq<Hunk>)
    ensures Tidy(CollapseFile(hunks))
    ensures |CollapseFile(hunks)|
              == (if |Chains(hunks)| <= MAX_WINDOWS_PER_FILE then |Chains(hunks)| else MAX_WINDOWS_PER_FILE)
    ensures forall i | 0 <= i < |CollapseFile(hunks)| :: CollapseFile(hunks)[i] == Clamp(Chains(hunks)[i])
    ensures forall i | 0 <= i < |CollapseFile(hunks)| :: FirstLines(CollapseFile(hunks)[i], Chains(hunks)[i], 200)
  {
    ChainsAreMaximal(hunks, 0, 0);
  }

  function AsHunks(ws: seq<LineWindow>): seq<Hunk> {
    seq(|ws|, i requires 0 <= i < |ws| => (ws[i].startLine, ws[i].endLine - ws[i].startLine + 1))
  }

  lemma {:induction false} AsHunksCover(ws: seq<LineWindow>, x: int)
    ensures Covered(AsHunks(ws), x) <==> In(ws, x)
  {
    var hs := AsHunks(ws);
    if In(ws, x) {
      var k := InIndex(ws, x);
      assert hs[k].1 > 0 && hs[k].0 <= x < hs[k].0 + hs[k].1;
    }
    if Covered(hs, x) {
      var k :| 0 <= k < |hs| && hs[k].1 > 0 && hs[k].0 <= x < hs[k].0 + hs[k].1;
      InAt(ws, k, x);
    }
  }

  // Windows that are apart are their own maximal chains.
  lemma {:induction false} ApartIsMerged(ws: seq<LineWindow>)
    requires Apart(ws)
    ensures MergedFrom(ws, ws)
  {
    forall i | 0 <= i < |ws| ensures ChainIn(ws, ws[i]) {
      var w := ws[i];
      InAt(ws, i, w.startLine);
      InAt(ws, i, w.endLine);
      forall x | In(ws, x) && w.startLine <= x < w.endLine ensures HasNext(ws, x, w.endLine) {
        InAt(ws, i, x + 1);
      }
    }
  }

  lemma {:induction false} ApartChains(ws: seq<LineWindow>, s: int, e: int)
    requires Apart(ws)
    ensures MaximalChain(ws, s, e) <==> LineWindow(s, e) in ws
  {
    ApartIsMerged(ws);
    if LineWindow(s, e) in ws {
      var i :| 0 <= i < |ws| && ws[i] == LineWindow(s, e);
      MergedIsMaximal(ws, ws, i);
    }
    if MaximalChain(ws, s, e) {
      var i := InIndex(ws, s);
      MergedIsMaximal(ws, ws, i);
      ChainsMeetAreEqual(ws, s, e, ws[i].startLine, ws[i].endLine, s);
      assert ws[i] == LineWindow(s, e);
    }
  }

  lemma {:induction false} TidyUnchanged(ws: seq<LineWindow>)
    requires Tidy(ws)
    ensures CollapseFile(AsHunks(ws)) == ws
  {
    var hs := AsHunks(ws);
    forall x ensures In(ws, x) <==> Covered(hs, x) { AsHunksCover(ws, x); }
    forall w ensures w in Chains(hs) <==> w in ws {
      assert w == LineWindow(w.startLine, w.endLine);
      ChainsAreMaximal(hs, w.startLine, w.endLine);
      ApartChains(ws, w.startLine, w.endLine);
    }
    ChainsAreMaximal(hs, 0, 0);
    ApartSameMembers(Chains(hs), ws);
    assert ClampAll(ws) == ws;
  }

  // Collapsing its own output changes nothing.
  lemma {:induction false} CollapseIdempotent(hunks: seq<Hunk>)
    ensures CollapseFile(AsHunks(CollapseFile(hunks))) == CollapseFile(hunks)
  {
    CollapseIsTidy(hunks);
    TidyUnchanged(CollapseFile(hunks));
  }
}
