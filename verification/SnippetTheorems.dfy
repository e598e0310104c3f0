// Which lines of a diff have a snippet, how long it is, and where it ends.

module SnippetTheorems {
  import opened Text
  import opened Chunks
  import opened UnifiedDiff
  import opened PatchContext
  import DiffHunks
  import DiffWindows

  // ---- The two readers of a diff agree ----

  // The diff text as a whole, and the patch text of one of its files: a snippet
  // is returned exactly for the target lines in the ranges that are reported
  // for the file from the whole diff.
  lemma {:induction false} SnippetIffReported(diff: string, ss: seq<DiffHunks.Section>, k: nat, path: string,
                                              patch: string, preamble: seq<string>, newFile: seq<string>, target: int)
    requires SplitLines(diff) == DiffHunks.DiffLines(ss)
    requires forall j | 0 <= j < |ss| :: DiffHunks.ReadableSection(ss[j]) && DiffHunks.SectionAttributed(ss[j])
    requires k < |ss| && ss[k].path == Some(path) && forall j | 0 <= j < |ss| && j != k :: ss[j].path != Some(path)
    requires PatchText(patch, preamble, ss[k].hunks) && DiffTo(ss[k].hunks, newFile)
    ensures target > 0 && HasLine(Entries(patch), target)
       <==> DiffWindows.Covered(DiffHunks.RangesFor(DiffHunks.RhsHunks(diff), path), target)
  {
    DiffHunks.ExtractionExactText(diff, ss);
    DiffHunks.ExpectedFor(map[], ss, path, k);
    assert [] + DiffHunks.Announced(ss[k].hunks) == DiffHunks.Announced(ss[k].hunks);
    SnippetIffInRange(patch, preamble, ss[k].hunks, newFile, target);
  }

  // ---- How long a snippet is ----

  // Numbered entries are bounded; removed lines come on top.
  lemma {:induction false} NumberedAtMost(all: seq<HunkLine>, idx: nat, context: nat, lo: nat, hi: nat)
    requires idx < |all| && Collected(all, idx, context, lo, hi) && all[idx].side != RemoveSide
    ensures Numbered(all, lo, hi) <= 2 * context + 1
  {
    NumberedSplit(all, lo, idx, hi);
    NumberedFront(all, idx, hi);
  }

  // Entries first..last around entry idx hold the context on either side, or
  // reach the end of the patch.
  predicate OffersContext(all: seq<HunkLine>, idx: nat, context: nat, first: nat, last: nat) {
    && first <= idx < last <= |all|
    && (first == 0 || Numbered(all, first, idx) >= context)
    && (last == |all| || Numbered(all, idx + 1, last) >= context)
  }

  // Some stretch of at most 2 * context + 1 entries does.
  ghost predicate ContextNearby(all: seq<HunkLine>, idx: nat, context: nat) {
    exists first: nat, last: nat :: OffersContext(all, idx, context, first, last) && last - first <= 2 * context + 1
  }

  // The walks do not stop at hunk boundaries.  With the entries first..last of
  // the target's hunk, the snippet stays inside exactly when the hunk itself
  // offers enough numbered lines on either side, or nothing lies beyond it.
  lemma {:induction false} StaysInHunkIff(all: seq<HunkLine>, idx: nat, context: nat, lo: nat, hi: nat, first: nat,
                                          last: nat)
    requires idx < |all| && Collected(all, idx, context, lo, hi) && first <= idx < last <= |all|
    ensures first <= lo <==> first == 0 || Numbered(all, first, idx) >= context
    ensures hi <= last <==> last == |all| || Numbered(all, idx + 1, last) >= context
  {
    if first <= lo {
      NumberedSplit(all, first, lo, idx);
    } else {
      NumberedSplit(all, lo, first, idx);
      NumberedFront(all, lo, first);
    }
    if hi <= last {
      NumberedSplit(all, idx + 1, hi, last);
    } else {
      NumberedSplit(all, idx + 1, last, hi);
      NumberedSplit(all, last, hi - 1, hi);
    }
  }

  // A snippet has at most 2 * context + 1 entries exactly if a stretch of the
  // patch that short holds the context of its target.
  lemma {:induction false} SnippetFitsIff(all: seq<HunkLine>, idx: nat, context: nat, lo: nat, hi: nat)
    requires idx < |all| && Collected(all, idx, context, lo, hi)
    ensures hi - lo <= 2 * context + 1 <==> ContextNearby(all, idx, context)
  {
    if hi - lo <= 2 * context + 1 {
      StaysInHunkIff(all, idx, context, lo, hi, lo, hi);
      assert OffersContext(all, idx, context, lo, hi);
    }
    if ContextNearby(all, idx, context) {
      var first: nat, last: nat :| OffersContext(all, idx, context, first, last) && last - first <= 2 * context + 1;
      StaysInHunkIff(all, idx, context, lo, hi, first, last);
    }
  }

  // ---- Two patches ----

  // A replaced pair of lines, as a hunk and as its five lines of text.
  function ShrinkingHunk(): Hunk {
    Hunk(1, Some(3), 1, Some(2), "", [Context("a"), Removed("x"), Removed("y"), Added("t")])
  }

  function ShrinkingPatch(): seq<string> {
    ["@@ -1,3 +1,2 @@", " a", "-x", "-y", "+t"]
  }

  lemma {:induction false} ShrinkingText()
    ensures PatchLines([ShrinkingHunk()]) == ShrinkingPatch() && AllOneLine(ShrinkingPatch())
  {
    var h := ShrinkingHunk();
    assert Digits(1) == "1" && Digits(2) == "2" && Digits(3) == "3";
    assert Range(1, Some(3)) == "1,3" && Range(1, Some(2)) == "1,2";
    assert HeaderLine(h) == ShrinkingPatch()[0];
    assert " " + "a" == " a" && "-" + "x" == "-x" && "-" + "y" == "-y" && "+" + "t" == "+t";
    assert BodyTexts(h.body) == ShrinkingPatch()[1..];
    assert PatchLines([h]) == HunkLines(h) + PatchLines([h][1..]);
  }

  lemma {:induction false} ShrinkingEntries()
    ensures Entries(Join(ShrinkingPatch())) ==
      [HunkLine(Some(1), "a", ContextSide), HunkLine(None, "x", RemoveSide), HunkLine(None, "y", RemoveSide),
          HunkLine(Some(2), "t", AddSide)]
  {
    var h := ShrinkingHunk();
    assert Entries(Join(ShrinkingPatch())) == PatchEntries([h]) by {
      ShrinkingText();
      assert [] + PatchLines([h]) == ShrinkingPatch();
      EntriesOfPatch(Join(ShrinkingPatch()), [], [h]);
    }
    ShrinkingBody();
    assert PatchEntries([h]) == BodyEntries(h.body, 1) + PatchEntries([h][1..]);
  }

  lemma {:induction false} ShrinkingBody()
    ensures BodyEntries(ShrinkingHunk().body, 1) ==
      [HunkLine(Some(1), "a", ContextSide), HunkLine(None, "x", RemoveSide), HunkLine(None, "y", RemoveSide),
          HunkLine(Some(2), "t", AddSide)]
  {
    BodyEntriesCons(Context("a"), [Removed("x"), Removed("y"), Added("t")], 1);
    BodyEntriesCons(Removed("x"), [Removed("y"), Added("t")], 2);
    BodyEntriesCons(Removed("y"), [Added("t")], 2);
    BodyEntriesCons(Added("t"), [], 2);
    assert ShrinkingHunk().body == [Context("a")] + [Removed("x"), Removed("y"), Added("t")];
    assert [Removed("x"), Removed("y"), Added("t")] == [Removed("x")] + [Removed("y"), Added("t")];
    assert [Removed("y"), Added("t")] == [Removed("y")] + [Added("t")];
    assert [Added("t")] == [Added("t")] + [];
  }

  lemma {:induction false} BodyEntriesCons(b: BodyLine, body: seq<BodyLine>, cursor: nat)
    requires !b.NoNewlineMark?
    ensures BodyEntries([b] + body, cursor) ==
      if b.Removed? then [HunkLine(None, b.text, RemoveSide)] + BodyEntries(body, cursor)
      else [HunkLine(Some(cursor), b.text, if b.Added? then AddSide else ContextSide)] + BodyEntries(body, cursor + 1)
  {
    assert ([b] + body)[1..] == body;
  }

  // With one line of context, the snippet of line 2 of that patch has four
  // entries, not at most three.
  lemma {:induction false} RemovedLinesExceed(lo: nat, hi: nat)
    ensures HasLine(Entries(Join(ShrinkingPatch())), 2)
    ensures Collected(Entries(Join(ShrinkingPatch())), FirstAt(Entries(Join(ShrinkingPatch())), 2), 1, lo, hi)
       <==> lo == 0 && hi == 4
  {
    ShrinkingEntries();
    var all := Entries(Join(ShrinkingPatch()));
    assert IsAt(all[3], 2) && FirstAt(all, 2) == 3;
    assert Numbered(all, 2, 3) == 0 && Numbered(all, 1, 3) == 0 && Numbered(all, 0, 3) == 1;
    assert Collected(all, 3, 1, 0, 4);
    if Collected(all, 3, 1, lo, hi) {
      CollectedOnce(all, 3, 1, 0, 4, lo, hi);
    }
  }

  // Two hunks far apart, each with an added line.
  function FarHunks(): seq<Hunk> {
    [Hunk(1, Some(1), 1, Some(2), "", [Context("a"), Added("b")]),
        Hunk(50, Some(1), 51, Some(2), "", [Context("y"), Added("z")])]
  }

  function FarPatch(): seq<string> {
    ["@@ -1,1 +1,2 @@", " a", "+b", "@@ -50,1 +51,2 @@", " y", "+z"]
  }

  lemma {:induction false} FirstFarText()
    ensures HunkLines(FarHunks()[0]) == FarPatch()[..3]
  {
    assert Digits(1) == "1" && Digits(2) == "2";
    assert HeaderLine(FarHunks()[0]) == "@@ -1,1 +1,2 @@";
    assert " " + "a" == " a" && "+" + "b" == "+b";
  }

  lemma {:induction false} SecondFarText()
    ensures HunkLines(FarHunks()[1]) == FarPatch()[3..]
  {
    assert Digits(1) == "1" && Digits(2) == "2" && Digits(5) == "5";
    assert Digits(50) == "50" && Digits(51) == "51";
    assert HeaderLine(FarHunks()[1]) == "@@ -50,1 +51,2 @@";
    assert " " + "y" == " y" && "+" + "z" == "+z";
  }

  lemma {:induction false} FarText()
    ensures PatchLines(FarHunks()) == FarPatch() && AllOneLine(FarPatch())
  {
    FirstFarText();
    SecondFarText();
    TwoHunks(FarHunks()[0], FarHunks()[1]);
    assert FarPatch()[..3] + FarPatch()[3..] == FarPatch();
  }

  lemma {:induction false} TwoHunks(h1: Hunk, h2: Hunk)
    ensures PatchLines([h1, h2]) == HunkLines(h1) + HunkLines(h2)
    ensures PatchEntries([h1, h2]) == BodyEntries(h1.body, h1.newStart) + BodyEntries(h2.body, h2.newStart)
  {
    assert [h1, h2][1..] == [h2] && [h2][1..] == [];
    assert PatchLines([h2]) == HunkLines(h2) + PatchLines([h2][1..]);
    assert PatchEntries([h2]) == BodyEntries(h2.body, h2.newStart) + PatchEntries([h2][1..]);
  }

  lemma {:induction false} TwoLineEntries(h: Hunk, a: string, b: string)
    requires h.body == [Context(a), Added(b)]
    ensures BodyEntries(h.body, h.newStart)
              == [HunkLine(Some(h.newStart), a, ContextSide), HunkLine(Some(h.newStart + 1), b, AddSide)]
  {
    assert h.body[1..] == [Added(b)] && [Added(b)][1..] == [];
    assert BodyEntries([Added(b)], h.newStart + 1)
        == [HunkLine(Some(h.newStart + 1), b, AddSide)] + BodyEntries([], h.newStart + 2);
  }

  lemma {:induction false} FarEntries()
    ensures Entries(Join(FarPatch())) ==
      [HunkLine(Some(1), "a", ContextSide), HunkLine(Some(2), "b", AddSide), HunkLine(Some(51), "y", ContextSide),
          HunkLine(Some(52), "z", AddSide)]
  {
    var hs := FarHunks();
    assert Entries(Join(FarPatch())) == PatchEntries(hs) by {
      FarText();
      assert [] + PatchLines(hs) == FarPatch();
      EntriesOfPatch(Join(FarPatch()), [], hs);
    }
    TwoLineEntries(hs[0], "a", "b");
    TwoLineEntries(hs[1], "y", "z");
    TwoHunks(hs[0], hs[1]);
  }

  // With one line of context, the snippet of line 2 of that patch also shows
  // line 51, from the other hunk.
  lemma {:induction false} SnippetCrossesHunks(lo: nat, hi: nat)
    ensures HasLine(Entries(Join(FarPatch())), 2)
    ensures Collected(Entries(Join(FarPatch())), FirstAt(Entries(Join(FarPatch())), 2), 1, lo, hi)
       <==> lo == 0 && hi == 3
    ensures |Entries(Join(FarPatch()))| > 2 && IsAt(Entries(Join(FarPatch()))[2], 51)
  {
    FarEntries();
    var all := Entries(Join(FarPatch()));
    assert IsAt(all[1], 2) && FirstAt(all, 2) == 1;
    assert Numbered(all, 0, 1) == 1 && Numbered(all, 2, 3) == 1;
    assert Collected(all, 1, 1, 0, 3);
    if Collected(all, 1, 1, lo, hi) {
      CollectedOnce(all, 1, 1, 0, 3, lo, hi);
    }
  }
}
