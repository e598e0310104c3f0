// The embedding model's per-input token cap: a chunk above it is halved by
// lines until every part fits; a chunk of a single line is cut short instead.

module TokenCap {
  import opened Text
  import opened Chunks

  const MAX_CHUNK_TOKENS := 7_000
  const MAX_SINGLE_LINE_CHARS := MAX_CHUNK_TOKENS * 3

  // RecursionLimit: the recursion used up its stack frames (Python raises RecursionError).
  datatype Outcome = Done(pieces: seq<ChunkSpec>) | RecursionLimit

  function Take<T>(xs: seq<T>, k: nat): seq<T> {
    if k <= |xs| then xs[..k] else xs
  }

  function Mid(n: nat): nat {
    if n / 2 >= 1 then n / 2 else 1
  }

  // The recursion always works on a stretch lo..hi of the chunk's lines; this
  // is where its first half ends.
  function Cut(lo: nat, hi: nat): (m: nat)
    requires lo <= hi
    ensures lo <= m <= hi
    ensures hi - lo >= 2 ==> lo < m < hi
  {
    if lo + Mid(hi - lo) <= hi then lo + Mid(hi - lo) else hi
  }

  function Whole(original: ChunkSpec, lines: seq<string>, lo: nat, hi: nat): ChunkSpec
    requires lo <= hi <= |lines|
  {
    ChunkSpec(original.filePath, original.language, original.startLine, original.startLine + (hi - lo) - 1,
              Join(lines[lo..hi]))
  }

  // The chunks handed to the two recursive calls.
  function LeftHalf(original: ChunkSpec, lines: seq<string>, lo: nat, hi: nat): ChunkSpec
    requires lo <= hi <= |lines|
  {
    ChunkSpec(original.filePath, original.language, original.startLine, original.startLine + Mid(hi - lo) - 1,
              Join(lines[lo..Cut(lo, hi)]))
  }

  function RightHalf(original: ChunkSpec, lines: seq<string>, lo: nat, hi: nat): ChunkSpec
    requires lo <= hi <= |lines|
  {
    ChunkSpec(original.filePath, original.language, original.startLine + Mid(hi - lo),
              original.startLine + (hi - lo) - 1,
              Join(lines[Cut(lo, hi)..hi]))
  }

  // `frames` is the number of stack frames the recursion may still use.
  function SplitChunk(tok: string -> nat, original: ChunkSpec, lines: seq<string>, lo: nat, hi: nat,
                      frames: nat): Outcome
    requires lo <= hi <= |lines|
    decreases frames
  {
    if frames == 0 then RecursionLimit
    else if tok(Join(lines[lo..hi])) <= MAX_CHUNK_TOKENS then Done([Whole(original, lines, lo, hi)])
    else
      Both(SplitChunk(tok, LeftHalf(original, lines, lo, hi), lines, lo, Cut(lo, hi), frames - 1),
           SplitChunk(tok, RightHalf(original, lines, lo, hi), lines, Cut(lo, hi), hi, frames - 1))
  }

  // The left half is split first, so its failure hides the right one's.
  function Both(left: Outcome, right: Outcome): Outcome {
    if left.RecursionLimit? || right.RecursionLimit? then RecursionLimit else Done(left.pieces + right.pieces)
  }

  // ---- What a finished split delivers ----

  // The pieces cut lines lo..hi of a text whose line 0 is line `first` of the
  // file into consecutive non-empty line ranges, each holding exactly its
  // lines, within the cap and marked with the file `c` came from.
  ghost predicate CutsLines(tok: string -> nat, c: ChunkSpec, ps: seq<ChunkSpec>, first: int, lines: seq<string>,
                            lo: nat, hi: nat)
    decreases |ps|
  {
    if ps == [] then lo == hi
    else
      var mid := ps[0].endLine + 1 - first;
      && ps[0].filePath == c.filePath && ps[0].language == c.language
      && ps[0].startLine == first + lo
      && lo < mid <= hi <= |lines|
      && ps[0].content == Join(lines[lo..mid])
      && tok(ps[0].content) <= MAX_CHUNK_TOKENS
      && CutsLines(tok, c, ps[1..], first, lines, mid, hi)
  }

  lemma {:induction false} CutsLinesConcat(tok: string -> nat, c: ChunkSpec, a: seq<ChunkSpec>, b: seq<ChunkSpec>,
                                           first: int, lines: seq<string>, lo: nat, mid: nat, hi: nat)
    returns (ps: seq<ChunkSpec>)
    requires CutsLines(tok, c, a, first, lines, lo, mid) && CutsLines(tok, c, b, first, lines, mid, hi)
    requires mid <= hi <= |lines|
    ensures ps == a + b && CutsLines(tok, c, ps, first, lines, lo, hi)
    decreases |a|
  {
    if a == [] {
      ps := b;
    } else {
      var rest := CutsLinesConcat(tok, c, a[1..], b, first, lines, a[0].endLine + 1 - first, mid, hi);
      ps := [a[0]] + rest;
      assert ps[1..] == rest && a == [a[0]] + a[1..];
    }
  }

  lemma {:induction false} CutsLinesSameFile(tok: string -> nat, c: ChunkSpec, d: ChunkSpec, ps: seq<ChunkSpec>,
                                             first: int, lines: seq<string>, lo: nat, hi: nat)
    requires CutsLines(tok, c, ps, first, lines, lo, hi) && c.filePath == d.filePath && c.language == d.language
    ensures CutsLines(tok, d, ps, first, lines, lo, hi)
    decreases |ps|
  {
    if ps != [] {
      CutsLinesSameFile(tok, c, d, ps[1..], first, lines, ps[0].endLine + 1 - first, hi);
    }
  }

  lemma {:induction false} SplitDelivers(tok: string -> nat, original: ChunkSpec, lines: seq<string>, lo: nat, hi: nat,
                                         frames: nat)
    returns (ps: seq<ChunkSpec>)
    requires lo < hi <= |lines| && SplitChunk(tok, original, lines, lo, hi, frames).Done?
    ensures SplitChunk(tok, original, lines, lo, hi, frames) == Done(ps)
    ensures CutsLines(tok, original, ps, original.startLine - lo, lines, lo, hi)
    decreases frames, 1
  {
    if tok(Join(lines[lo..hi])) <= MAX_CHUNK_TOKENS {
      ps := [Whole(original, lines, lo, hi)];
      assert ps[1..] == [];
    } else {
      if hi - lo == 1 {
        SingleLineDiverges(tok, original, lines, lo, frames);
      }
      ps := HalvesDeliver(tok, original, lines, lo, hi, frames);
    }
  }

  lemma {:induction false} SplitsInHalves(tok: string -> nat, original: ChunkSpec, lines: seq<string>, lo: nat, hi: nat,
                                          frames: nat)
    requires lo + 1 < hi <= |lines| && tok(Join(lines[lo..hi])) > MAX_CHUNK_TOKENS && frames > 0
    ensures SplitChunk(tok, original, lines, lo, hi, frames)
         == Both(SplitChunk(tok, LeftHalf(original, lines, lo, hi), lines, lo, Cut(lo, hi), frames - 1),
                 SplitChunk(tok, RightHalf(original, lines, lo, hi), lines, Cut(lo, hi), hi, frames - 1))
  {
  }

  lemma {:induction false} HalvesDeliver(tok: string -> nat, original: ChunkSpec, lines: seq<string>, lo: nat, hi: nat,
                                         frames: nat)
    returns (ps: seq<ChunkSpec>)
    requires lo + 1 < hi <= |lines| && SplitChunk(tok, original, lines, lo, hi, frames).Done?
    requires tok(Join(lines[lo..hi])) > MAX_CHUNK_TOKENS && frames > 0
    ensures SplitChunk(tok, original, lines, lo, hi, frames) == Done(ps)
    ensures CutsLines(tok, original, ps, original.startLine - lo, lines, lo, hi)
    decreases frames, 0
  {
    var mid, first := Cut(lo, hi), original.startLine - lo;
    SplitsInHalves(tok, original, lines, lo, hi, frames);
    var a := HalfDelivers(tok, original, LeftHalf(original, lines, lo, hi), first, lines, lo, mid, frames - 1);
    var b := HalfDelivers(tok, original, RightHalf(original, lines, lo, hi), first, lines, mid, hi, frames - 1);
    ps := CutsLinesConcat(tok, original, a, b, first, lines, lo, mid, hi);
  }

  lemma {:induction false} HalfDelivers(tok: string -> nat, original: ChunkSpec, half: ChunkSpec, first: int,
                                        lines: seq<string>, lo: nat, hi: nat, frames: nat)
    returns (ps: seq<ChunkSpec>)
    requires lo < hi <= |lines| && SplitChunk(tok, half, lines, lo, hi, frames).Done?
    requires half.filePath == original.filePath && half.language == original.language && half.startLine == first + lo
    ensures SplitChunk(tok, half, lines, lo, hi, frames) == Done(ps)
    ensures CutsLines(tok, original, ps, first, lines, lo, hi)
    decreases frames, 2
  {
    ps := SplitDelivers(tok, half, lines, lo, hi, frames);
    CutsLinesSameFile(tok, half, original, ps, first, lines, lo, hi);
  }

  // Joining the pieces gives the joined input back.
  lemma {:induction false} CutsLinesJoin(tok: string -> nat, c: ChunkSpec, ps: seq<ChunkSpec>, first: int,
                                         lines: seq<string>, lo: nat, hi: nat)
    requires CutsLines(tok, c, ps, first, lines, lo, hi) && lo <= hi <= |lines|
    ensures Join(Contents(ps)) == Join(lines[lo..hi])
    ensures ps == [] <==> lo == hi
    decreases |ps|
  {
    if ps != [] {
      var mid := ps[0].endLine + 1 - first;
      CutsLinesJoin(tok, c, ps[1..], first, lines, mid, hi);
      assert Contents(ps)[1..] == Contents(ps[1..]);
      assert lines[lo..hi] == lines[lo..mid] + lines[mid..hi];
      if ps[1..] != [] {
        JoinConcat(lines[lo..mid], lines[mid..hi]);
      }
    }
  }

  // Read by index: ranges are consecutive, start and end with the input, and
  // each piece holds the input's lines at its own range.
  lemma {:induction false} CutsLinesAt(tok: string -> nat, c: ChunkSpec, ps: seq<ChunkSpec>, first: int,
                                       lines: seq<string>, lo: nat, hi: nat, i: nat)
    requires CutsLines(tok, c, ps, first, lines, lo, hi) && i < |ps|
    ensures ps[i].filePath == c.filePath && ps[i].language == c.language && tok(ps[i].content) <= MAX_CHUNK_TOKENS
    ensures first + lo <= ps[i].startLine <= ps[i].endLine < first + hi && hi <= |lines|
    ensures ps[i].content == Join(lines[ps[i].startLine - first..ps[i].endLine + 1 - first])
    ensures i == 0 ==> ps[i].startLine == first + lo
    ensures i + 1 < |ps| ==> ps[i + 1].startLine == ps[i].endLine + 1
    ensures i + 1 == |ps| ==> ps[i].endLine == first + hi - 1
    decreases |ps|
  {
    if i > 0 {
      CutsLinesAt(tok, c, ps[1..], first, lines, ps[0].endLine + 1 - first, hi, i - 1);
    } else if |ps| == 1 {
      assert ps[1..] == [];
    }
  }

  // Halving a whole text, put together: it is cut into consecutive line ranges
  // and joining the pieces restores it.
  lemma {:induction false} SplitIsCut(tok: string -> nat, c: ChunkSpec, lines: seq<string>, frames: nat)
    requires lines != [] && SplitChunk(tok, c, lines, 0, |lines|, frames).Done?
    ensures CutsLines(tok, c, SplitChunk(tok, c, lines, 0, |lines|, frames).pieces, c.startLine, lines, 0, |lines|)
    ensures Join(Contents(SplitChunk(tok, c, lines, 0, |lines|, frames).pieces)) == Join(lines)
  {
    assert lines[0..|lines|] == lines;
    var ps := SplitDelivers(tok, c, lines, 0, |lines|, frames);
    CutsLinesJoin(tok, c, ps, c.startLine, lines, 0, |lines|);
  }

  ghost predicate AllFit(tok: string -> nat, ps: seq<ChunkSpec>) {
    forall i | 0 <= i < |ps| :: tok(ps[i].content) <= MAX_CHUNK_TOKENS
  }

  // ---- When it finishes ----

  // The first recursive call on a single line over the cap has the caller's own arguments.
  lemma {:induction false} SingleLineFixedPoint(original: ChunkSpec, lines: seq<string>, i: nat)
    requires i < |lines|
    ensures LeftHalf(Whole(original, lines, i, i + 1), lines, i, i + 1) == Whole(original, lines, i, i + 1)
    ensures Cut(i, i + 1) == i + 1
  {
  }

  lemma {:induction false} SingleLineDiverges(tok: string -> nat, original: ChunkSpec, lines: seq<string>, i: nat,
                                              frames: nat)
    requires i < |lines| && tok(lines[i]) > MAX_CHUNK_TOKENS
    ensures SplitChunk(tok, original, lines, i, i + 1, frames) == RecursionLimit
    decreases frames
  {
    if frames > 0 {
      assert Join(lines[i..i + 1]) == lines[i];
      SingleLineDiverges(tok, LeftHalf(original, lines, i, i + 1), lines, i, frames - 1);
    }
  }

  // Of the lines lo..hi being halved, line i is over the cap and so is every
  // block of the halving that contains it.
  ghost predicate Stuck(tok: string -> nat, lines: seq<string>, lo: nat, hi: nat, i: nat)
    requires lo <= i < hi <= |lines|
    decreases hi - lo
  {
    && tok(Join(lines[lo..hi])) > MAX_CHUNK_TOKENS
    && (hi - lo > 1 ==>
          var mid := Cut(lo, hi);
          if i < mid then Stuck(tok, lines, lo, mid, i) else Stuck(tok, lines, mid, hi, i))
  }

  ghost predicate NoneStuck(tok: string -> nat, lines: seq<string>, lo: nat, hi: nat)
    requires lo <= hi <= |lines|
  {
    forall i: nat | lo <= i < hi :: !Stuck(tok, lines, lo, hi, i)
  }

  // Frames the halving of n lines needs: about the binary logarithm.
  function Height(n: nat): nat {
    if n <= 1 then 1 else 1 + Height(n - n / 2)
  }

  lemma {:induction false} HeightMonotone(m: nat, n: nat)
    requires m <= n
    ensures Height(m) <= Height(n)
  {
    if m > 1 {
      HeightMonotone(m - m / 2, n - n / 2);
    }
  }

  lemma {:induction false} HeightOfHalves(lo: nat, hi: nat)
    requires hi - lo > 1
    ensures Height(hi - lo) == 1 + Height(hi - Cut(lo, hi)) && Height(Cut(lo, hi) - lo) <= Height(hi - Cut(lo, hi))
  {
    HeightMonotone(Cut(lo, hi) - lo, hi - Cut(lo, hi));
  }

  function Pow2(k: nat): nat {
    if k == 0 then 1 else 2 * Pow2(k - 1)
  }

  lemma {:induction false} HeightBound(n: nat, k: nat)
    requires n <= Pow2(k)
    ensures Height(n) <= k + 1
  {
    if n > 1 {
      HeightBound(n - n / 2, k - 1);
    }
  }

  lemma {:induction false} StuckDiverges(tok: string -> nat, original: ChunkSpec, lines: seq<string>, lo: nat, hi: nat,
                                         i: nat, frames: nat)
    requires lo <= i < hi <= |lines| && Stuck(tok, lines, lo, hi, i)
    ensures SplitChunk(tok, original, lines, lo, hi, frames) == RecursionLimit
    decreases frames
  {
    if hi - lo == 1 {
      assert Join(lines[i..i + 1]) == lines[i];
      SingleLineDiverges(tok, original, lines, i, frames);
    } else if frames > 0 {
      if i < Cut(lo, hi) {
        StuckDiverges(tok, LeftHalf(original, lines, lo, hi), lines, lo, Cut(lo, hi), i, frames - 1);
      } else {
        StuckDiverges(tok, RightHalf(original, lines, lo, hi), lines, Cut(lo, hi), hi, i, frames - 1);
      }
    }
  }

  lemma {:induction false} HalvesUnstuck(tok: string -> nat, lines: seq<string>, lo: nat, hi: nat)
    requires lo + 1 < hi <= |lines| && tok(Join(lines[lo..hi])) > MAX_CHUNK_TOKENS && NoneStuck(tok, lines, lo, hi)
    ensures NoneStuck(tok, lines, lo, Cut(lo, hi)) && NoneStuck(tok, lines, Cut(lo, hi), hi)
  {
    var mid := Cut(lo, hi);
    forall i: nat | lo <= i < mid ensures !Stuck(tok, lines, lo, mid, i) {
      assert !Stuck(tok, lines, lo, hi, i);
    }
    forall i: nat | mid <= i < hi ensures !Stuck(tok, lines, mid, hi, i) {
      assert !Stuck(tok, lines, lo, hi, i);
    }
  }

  // No halving is ever asked of a single line.
  ghost predicate Halvable(tok: string -> nat, lines: seq<string>, lo: nat, hi: nat)
    requires lo < hi <= |lines|
    decreases hi - lo
  {
    || tok(Join(lines[lo..hi])) <= MAX_CHUNK_TOKENS
    || (hi - lo > 1 && Halvable(tok, lines, lo, Cut(lo, hi)) && Halvable(tok, lines, Cut(lo, hi), hi))
  }

  lemma {:induction false} UnstuckIsHalvable(tok: string -> nat, lines: seq<string>, lo: nat, hi: nat)
    requires lo < hi <= |lines| && NoneStuck(tok, lines, lo, hi)
    ensures Halvable(tok, lines, lo, hi)
    decreases hi - lo
  {
    if hi - lo == 1 {
      assert !Stuck(tok, lines, lo, hi, lo);
    } else if tok(Join(lines[lo..hi])) > MAX_CHUNK_TOKENS {
      HalvesUnstuck(tok, lines, lo, hi);
      UnstuckIsHalvable(tok, lines, lo, Cut(lo, hi));
      UnstuckIsHalvable(tok, lines, Cut(lo, hi), hi);
    }
  }

  lemma {:induction false} LimitNotHalvable(tok: string -> nat, original: ChunkSpec, lines: seq<string>, lo: nat,
                                            hi: nat, frames: nat)
    requires lo < hi <= |lines| && frames >= Height(hi - lo)
    requires SplitChunk(tok, original, lines, lo, hi, frames).RecursionLimit?
    ensures !Halvable(tok, lines, lo, hi)
    decreases hi - lo
  {
    if hi - lo > 1 {
      var mid := Cut(lo, hi);
      HeightOfHalves(lo, hi);
      SplitsInHalves(tok, original, lines, lo, hi, frames);
      if SplitChunk(tok, LeftHalf(original, lines, lo, hi), lines, lo, mid, frames - 1).RecursionLimit? {
        LimitNotHalvable(tok, LeftHalf(original, lines, lo, hi), lines, lo, mid, frames - 1);
      } else {
        LimitNotHalvable(tok, RightHalf(original, lines, lo, hi), lines, mid, hi, frames - 1);
      }
    }
  }

  // Exactly when splitting finishes, for any tokenizer.
  lemma {:induction false} SplitFinishesIff(tok: string -> nat, original: ChunkSpec, lines: seq<string>, frames: nat)
    requires lines != [] && frames >= Height(|lines|)
    ensures SplitChunk(tok, original, lines, 0, |lines|, frames).Done? <==> NoneStuck(tok, lines, 0, |lines|)
  {
    if !NoneStuck(tok, lines, 0, |lines|) {
      var i: nat :| i < |lines| && Stuck(tok, lines, 0, |lines|, i);
      StuckDiverges(tok, original, lines, 0, |lines|, i, frames);
    } else {
      UnstuckIsHalvable(tok, lines, 0, |lines|);
      if SplitChunk(tok, original, lines, 0, |lines|, frames).RecursionLimit? {
        LimitNotHalvable(tok, original, lines, 0, |lines|, frames);
      }
    }
  }

  lemma {:induction false} StuckLineOverCap(tok: string -> nat, lines: seq<string>, lo: nat, hi: nat, i: nat)
    requires lo <= i < hi <= |lines| && Stuck(tok, lines, lo, hi, i)
    ensures tok(lines[i]) > MAX_CHUNK_TOKENS
    decreases hi - lo
  {
    if hi - lo == 1 {
      assert Join(lines[i..i + 1]) == lines[i];
    } else {
      var mid := Cut(lo, hi);
      if i < mid {
        StuckLineOverCap(tok, lines, lo, mid, i);
      } else {
        StuckLineOverCap(tok, lines, mid, hi, i);
      }
    }
  }

  // If every single line fits, splitting finishes.
  lemma {:induction false} LinesFitFinishes(tok: string -> nat, original: ChunkSpec, lines: seq<string>, frames: nat)
    requires lines != [] && frames >= Height(|lines|)
    requires forall i | 0 <= i < |lines| :: tok(lines[i]) <= MAX_CHUNK_TOKENS
    ensures SplitChunk(tok, original, lines, 0, |lines|, frames).Done?
  {
    forall i: nat | i < |lines| ensures !Stuck(tok, lines, 0, |lines|, i) {
      if Stuck(tok, lines, 0, |lines|, i) {
        StuckLineOverCap(tok, lines, 0, |lines|, i);
      }
    }
    SplitFinishesIff(tok, original, lines, frames);
  }

  // A tokenizer that never counts fewer tokens for a text than for one of its lines.
  ghost predicate LineMonotone(tok: string -> nat) {
    forall ls: seq<string>, i: nat | i < |ls| :: tok(ls[i]) <= tok(Join(ls))
  }

  lemma {:induction false} LineWithinJoin(tok: string -> nat, ls: seq<string>, i: nat)
    requires LineMonotone(tok) && i < |ls|
    ensures tok(ls[i]) <= tok(Join(ls))
  {
  }

  lemma {:induction false} OverCapLineIsStuck(tok: string -> nat, lines: seq<string>, lo: nat, hi: nat, i: nat)
    requires LineMonotone(tok) && lo <= i < hi <= |lines| && tok(lines[i]) > MAX_CHUNK_TOKENS
    ensures Stuck(tok, lines, lo, hi, i)
    decreases hi - lo
  {
    assert lines[lo..hi][i - lo] == lines[i];
    LineWithinJoin(tok, lines[lo..hi], i - lo);
    if hi - lo > 1 {
      var mid := Cut(lo, hi);
      if i < mid {
        OverCapLineIsStuck(tok, lines, lo, mid, i);
      } else {
        OverCapLineIsStuck(tok, lines, mid, hi, i);
      }
    }
  }

  // With such a tokenizer the condition is exact, however many frames there are.
  lemma {:induction false} SplitFinishesIffLinesFit(tok: string -> nat, original: ChunkSpec, lines: seq<string>)
    requires LineMonotone(tok) && lines != []
    ensures (exists frames: nat :: SplitChunk(tok, original, lines, 0, |lines|, frames).Done?)
       <==> (forall i | 0 <= i < |lines| :: tok(lines[i]) <= MAX_CHUNK_TOKENS)
  {
    if i :| 0 <= i < |lines| && tok(lines[i]) > MAX_CHUNK_TOKENS {
      OverCapLineIsStuck(tok, lines, 0, |lines|, i);
      forall frames: nat ensures !SplitChunk(tok, original, lines, 0, |lines|, frames).Done? {
        StuckDiverges(tok, original, lines, 0, |lines|, i, frames);
      }
    } else {
      LinesFitFinishes(tok, original, lines, Height(|lines|));
    }
  }

  // ---- A whole list of chunks ----

  function Trimmed(c: ChunkSpec): ChunkSpec {
    c.(content := Take(c.content, MAX_SINGLE_LINE_CHARS))
  }

  function CapOne(tok: string -> nat, c: ChunkSpec, frames: nat): Outcome {
    if tok(c.content) <= MAX_CHUNK_TOKENS then Done([c])
    else if |SplitLines(c.content)| <= 1 then Done([Trimmed(c)])
    else SplitChunk(tok, c, SplitLines(c.content), 0, |SplitLines(c.content)|, frames)
  }

  function CapAll(tok: string -> nat, cs: seq<ChunkSpec>, frames: nat): Outcome {
    if cs == [] then Done([])
    else
      var init := CapAll(tok, cs[..|cs| - 1], frames);
      if init.RecursionLimit? then RecursionLimit
      else
        var last := CapOne(tok, cs[|cs| - 1], frames);
        if last.RecursionLimit? then RecursionLimit else Done(init.pieces + last.pieces)
  }

  ghost predicate Counted(tok: string -> nat, cs: seq<ChunkSpec>, counts: seq<nat>) {
    |counts| == |cs| && forall i | 0 <= i < |cs| :: counts[i] == tok(cs[i].content)
  }

  lemma {:induction false} CapAllPrefix(tok: string -> nat, cs: seq<ChunkSpec>, k: nat, frames: nat)
    requires k <= |cs| && CapAll(tok, cs[..k], frames).RecursionLimit?
    ensures CapAll(tok, cs, frames).RecursionLimit?
    decreases |cs|
  {
    if k < |cs| {
      assert cs[..|cs| - 1][..k] == cs[..k];
      CapAllPrefix(tok, cs[..|cs| - 1], k, frames);
    } else {
      assert cs[..k] == cs;
    }
  }

  // Each piece of a split chunk, with its own count.
  method AppendCounted(tok: string -> nat, chunks: seq<ChunkSpec>, counts: seq<nat>, pieces: seq<ChunkSpec>)
    returns (outChunks: seq<ChunkSpec>, outCounts: seq<nat>)
    requires Counted(tok, chunks, counts)
    ensures outChunks == chunks + pieces && Counted(tok, outChunks, outCounts)
  {
    outChunks, outCounts := chunks, counts;
    for j := 0 to |pieces|
      invariant outChunks == chunks + pieces[..j] && Counted(tok, outChunks, outCounts)
    {
      var count := tok(pieces[j].content);
      assert pieces[..j + 1] == pieces[..j] + [pieces[j]];
      outChunks, outCounts := outChunks + [pieces[j]], outCounts + [count];
    }
    assert pieces[..|pieces|] == pieces;
  }

  method EnforceChunkTokenCap(tok: string -> nat, chunks: seq<ChunkSpec>, frames: nat)
    returns (result: Outcome, outCounts: seq<nat>)
    ensures result == CapAll(tok, chunks, frames)
    ensures result.Done? ==> Counted(tok, result.pieces, outCounts)
    ensures (forall k | 0 <= k < |chunks| :: tok(chunks[k].content) <= 7000) ==> result == Done(chunks)
  {
    var outChunks: seq<ChunkSpec> := [];
    outCounts := [];
    var i := 0;
    while i < |chunks|
      invariant 0 <= i <= |chunks|
      invariant CapAll(tok, chunks[..i], frames) == Done(outChunks)
      invariant Counted(tok, outChunks, outCounts)
    {
      var chunk := chunks[i];
      assert chunks[..i + 1][..i] == chunks[..i];
      i := i + 1;
      var count := tok(chunk.content);
      if count <= MAX_CHUNK_TOKENS {
        outChunks, outCounts := outChunks + [chunk], outCounts + [count];
        continue;
      }
      var lines := SplitLines(chunk.content);
      if |lines| <= 1 {
        var trimmed := Trimmed(chunk);
        outChunks, outCounts := outChunks + [trimmed], outCounts + [tok(trimmed.content)];
        continue;
      }
      var sub := SplitChunk(tok, chunk, lines, 0, |lines|, frames);
      if sub.RecursionLimit? {
        CapAllPrefix(tok, chunks, i, frames);
        if forall k | 0 <= k < |chunks| :: tok(chunks[k].content) <= 7000 {
          FittingChunksKept(tok, chunks, frames);
        }
        return RecursionLimit, [];
      }
      outChunks, outCounts := AppendCounted(tok, outChunks, outCounts, sub.pieces);
    }
    assert chunks[..i] == chunks;
    result := Done(outChunks);
    if forall k | 0 <= k < |chunks| :: tok(chunks[k].content) <= 7000 {
      FittingChunksKept(tok, chunks, frames);
    }
  }

  // ---- What is cut, and how far ----

  // Block x..y comes from lines lo..hi by halving, at (hi - lo) / 2 lines from
  // the start, blocks that are over the cap.
  ghost predicate HalvedDownTo(tok: string -> nat, lines: seq<string>, lo: nat, hi: nat, x: int, y: int)
    requires lo < hi <= |lines|
    decreases hi - lo
  {
    || (x == lo && y == hi)
    || (hi - lo > 1 && tok(Join(lines[lo..hi])) > MAX_CHUNK_TOKENS
        && (HalvedDownTo(tok, lines, lo, lo + (hi - lo) / 2, x, y)
            || HalvedDownTo(tok, lines, lo + (hi - lo) / 2, hi, x, y)))
  }

  // Every piece is such a block, at its line range.
  ghost predicate AllHalved(tok: string -> nat, lines: seq<string>, lo: nat, hi: nat, first: int, ps: seq<ChunkSpec>)
    requires lo < hi <= |lines|
  {
    forall i | 0 <= i < |ps| :: HalvedDownTo(tok, lines, lo, hi, ps[i].startLine - first, ps[i].endLine + 1 - first)
  }

  lemma {:induction false} HalvesHalved(tok: string -> nat, lines: seq<string>, lo: nat, mid: nat, hi: nat, first: int,
                                        a: seq<ChunkSpec>, b: seq<ChunkSpec>)
    returns (ps: seq<ChunkSpec>)
    requires lo < mid < hi <= |lines| && mid == lo + (hi - lo) / 2 && tok(Join(lines[lo..hi])) > MAX_CHUNK_TOKENS
    requires AllHalved(tok, lines, lo, mid, first, a) && AllHalved(tok, lines, mid, hi, first, b)
    ensures ps == a + b && AllHalved(tok, lines, lo, hi, first, ps)
  {
    ps := a + b;
    forall i | 0 <= i < |ps|
      ensures HalvedDownTo(tok, lines, lo, hi, ps[i].startLine - first, ps[i].endLine + 1 - first)
    {
      if i < |a| {
        assert HalvedDownTo(tok, lines, lo, mid, a[i].startLine - first, a[i].endLine + 1 - first);
      } else {
        assert HalvedDownTo(tok, lines, mid, hi, b[i - |a|].startLine - first, b[i - |a|].endLine + 1 - first);
      }
    }
  }

  lemma {:induction false} PiecesAreHalved(tok: string -> nat, original: ChunkSpec, lines: seq<string>, lo: nat,
                                           hi: nat, first: int, frames: nat)
    returns (ps: seq<ChunkSpec>)
    requires lo < hi <= |lines| && SplitChunk(tok, original, lines, lo, hi, frames).Done?
    requires original.startLine == first + lo
    ensures SplitChunk(tok, original, lines, lo, hi, frames) == Done(ps)
    ensures AllHalved(tok, lines, lo, hi, first, ps)
    decreases frames
  {
    if tok(Join(lines[lo..hi])) <= MAX_CHUNK_TOKENS {
      ps := [Whole(original, lines, lo, hi)];
    } else {
      if hi - lo == 1 {
        SingleLineDiverges(tok, original, lines, lo, frames);
      }
      var mid := Cut(lo, hi);
      SplitsInHalves(tok, original, lines, lo, hi, frames);
      var a := PiecesAreHalved(tok, LeftHalf(original, lines, lo, hi), lines, lo, mid, first, frames - 1);
      var b := PiecesAreHalved(tok, RightHalf(original, lines, lo, hi), lines, mid, hi, first, frames - 1);
      ps := HalvesHalved(tok, lines, lo, mid, hi, first, a, b);
    }
  }

  // A chunk within the cap comes back as it is; one line over the cap as its
  // first 21000 characters at the same place; and of more lines no block is cut
  // that is within the cap.
  lemma {:induction false} OnlyOverCapIsCut(tok: string -> nat, c: ChunkSpec, frames: nat)
    ensures tok(c.content) <= 7000 ==> CapOne(tok, c, frames) == Done([c])
    ensures
      tok(c.content) > 7000 && |SplitLines(c.content)| <= 1 ==>
        CapOne(tok, c, frames) == Done([c.(content := if |c.content| > 21000 then c.content[..21000] else c.content)])
    ensures
      tok(c.content) > 7000 && |SplitLines(c.content)| > 1 && CapOne(tok, c, frames).Done? ==>
        AllHalved(tok, SplitLines(c.content), 0, |SplitLines(c.content)|, c.startLine, CapOne(tok, c, frames).pieces)
  {
    var lines := SplitLines(c.content);
    assert |c.content| == 21000 ==> c.content[..21000] == c.content;
    if tok(c.content) > 7000 && |lines| > 1 && CapOne(tok, c, frames).Done? {
      var ps := PiecesAreHalved(tok, c, lines, 0, |lines|, c.startLine, frames);
    }
  }

  // A list in which every chunk is within the cap comes back as it is,
  lemma {:induction false} FittingChunksKept(tok: string -> nat, cs: seq<ChunkSpec>, frames: nat)
    requires forall k | 0 <= k < |cs| :: tok(cs[k].content) <= 7000
    ensures CapAll(tok, cs, frames) == Done(cs)
    decreases |cs|
  {
    if cs != [] {
      var n := |cs| - 1;
      FittingChunksKept(tok, cs[..n], frames);
      assert cs == cs[..n] + [cs[n]];
    }
  }

  lemma {:induction false} BothAssociates(x: Outcome, y: Outcome, z: Outcome)
    ensures Both(Both(x, y), z) == Both(x, Both(y, z))
  {
    if x.Done? && y.Done? && z.Done? {
      assert x.pieces + y.pieces + z.pieces == x.pieces + (y.pieces + z.pieces);
    }
  }

  lemma {:induction false} CapAllSnoc(tok: string -> nat, cs: seq<ChunkSpec>, c: ChunkSpec, frames: nat)
    ensures CapAll(tok, cs + [c], frames) == Both(CapAll(tok, cs, frames), CapOne(tok, c, frames))
  {
    assert (cs + [c])[..|cs|] == cs;
  }

  // and any list is capped chunk by chunk.
  lemma {:induction false} CapAllConcat(tok: string -> nat, a: seq<ChunkSpec>, b: seq<ChunkSpec>, frames: nat)
    ensures CapAll(tok, a + b, frames) == Both(CapAll(tok, a, frames), CapAll(tok, b, frames))
    decreases |b|
  {
    if b == [] {
      assert a + b == a;
    } else {
      var front, last := b[..|b| - 1], b[|b| - 1];
      assert b == front + [last] && a + b == a + front + [last];
      CapAllConcat(tok, a, front, frames);
      CapAllSnoc(tok, a + front, last, frames);
      CapAllSnoc(tok, front, last, frames);
      BothAssociates(CapAll(tok, a, frames), CapAll(tok, front, frames), CapOne(tok, last, frames));
    }
  }

  // ---- What capping keeps ----

  // p came from c: same file, a line range inside c's, and within the cap
  // unless it is a single line cut short.
  predicate CameFrom(tok: string -> nat, c: ChunkSpec, p: ChunkSpec) {
    && p.filePath == c.filePath && p.language == c.language
    && c.startLine <= p.startLine <= p.endLine <= c.endLine
    && (tok(p.content) <= MAX_CHUNK_TOKENS
        || (|SplitLines(c.content)| <= 1 && p == Trimmed(c) && |p.content| <= MAX_SINGLE_LINE_CHARS))
  }

  // The chunk's line range has room for the lines of its text.
  ghost predicate RoomForLines(c: ChunkSpec) {
    c.startLine <= c.endLine && c.startLine + |SplitLines(c.content)| - 1 <= c.endLine
  }

  ghost predicate AllRoomy(cs: seq<ChunkSpec>) {
    forall k | 0 <= k < |cs| :: RoomForLines(cs[k])
  }

  // Nothing is cut short.
  ghost predicate KeepsText(tok: string -> nat, c: ChunkSpec) {
    tok(c.content) <= MAX_CHUNK_TOKENS || |SplitLines(c.content)| > 1
  }

  lemma {:induction false} CapOneOrigin(tok: string -> nat, c: ChunkSpec, frames: nat, i: nat)
    requires RoomForLines(c) && CapOne(tok, c, frames).Done? && i < |CapOne(tok, c, frames).pieces|
    ensures CameFrom(tok, c, CapOne(tok, c, frames).pieces[i])
  {
    var lines := SplitLines(c.content);
    if tok(c.content) > MAX_CHUNK_TOKENS && |lines| > 1 {
      SplitIsCut(tok, c, lines, frames);
      CutsLinesAt(tok, c, CapOne(tok, c, frames).pieces, c.startLine, lines, 0, |lines|, i);
    }
  }

  lemma {:induction false} CapOneKeepsText(tok: string -> nat, c: ChunkSpec, frames: nat)
    requires KeepsText(tok, c) && CapOne(tok, c, frames).Done?
    ensures InkOf(CapOne(tok, c, frames).pieces) == Ink(c.content)
  {
    var ps, lines := CapOne(tok, c, frames).pieces, SplitLines(c.content);
    if tok(c.content) <= MAX_CHUNK_TOKENS {
      assert Contents(ps) == [c.content];
      assert Concat([c.content]) == c.content + Concat([c.content][1..]) == c.content;
    } else {
      SplitIsCut(tok, c, lines, frames);
      InkJoin(Contents(ps));
      JoinSplitLines(c.content);
      InkConcat(Join(lines), "\n");
      assert Ink("\n") == Ink("\n"[1..]);
    }
  }

  lemma {:induction false} CapOneNonEmpty(tok: string -> nat, c: ChunkSpec, frames: nat)
    requires CapOne(tok, c, frames).Done?
    ensures CapOne(tok, c, frames).pieces != []
  {
    var lines := SplitLines(c.content);
    if tok(c.content) > MAX_CHUNK_TOKENS && |lines| > 1 {
      SplitIsCut(tok, c, lines, frames);
    }
  }

  ghost predicate FromSome(tok: string -> nat, cs: seq<ChunkSpec>, p: ChunkSpec) {
    exists k :: 0 <= k < |cs| && CameFrom(tok, cs[k], p)
  }

  // Every output chunk comes from an input chunk.
  lemma {:induction false} CapAllOrigin(tok: string -> nat, cs: seq<ChunkSpec>, frames: nat, i: nat)
    requires AllRoomy(cs) && CapAll(tok, cs, frames).Done? && i < |CapAll(tok, cs, frames).pieces|
    ensures FromSome(tok, cs, CapAll(tok, cs, frames).pieces[i])
    decreases |cs|
  {
    var n := |cs| - 1;
    var init := CapAll(tok, cs[..n], frames).pieces;
    if i < |init| {
      CapAllOrigin(tok, cs[..n], frames, i);
      var k :| 0 <= k < n && CameFrom(tok, cs[..n][k], init[i]);
      assert cs[..n][k] == cs[k];
    } else {
      CapOneOrigin(tok, cs[n], frames, i - |init|);
    }
  }

  // When nothing is cut short, the capped chunks hold the text of the given
  // ones, in order and once each.
  lemma {:induction false} CapAllKeepsText(tok: string -> nat, cs: seq<ChunkSpec>, frames: nat)
    requires CapAll(tok, cs, frames).Done?
    requires forall k | 0 <= k < |cs| :: KeepsText(tok, cs[k])
    ensures InkOf(CapAll(tok, cs, frames).pieces) == InkOf(cs)
    decreases |cs|
  {
    if cs != [] {
      var init, last := cs[..|cs| - 1], cs[|cs| - 1];
      CapAllKeepsText(tok, init, frames);
      assert InkOf(CapOne(tok, last, frames).pieces) == Ink(last.content) by {
        CapOneKeepsText(tok, last, frames);
      }
      InkOfConcat(CapAll(tok, init, frames).pieces, CapOne(tok, last, frames).pieces);
      assert InkOf(cs) == InkOf(init) + Ink(last.content) by {
        InkOfConcat(init, [last]);
        InkOfCons([last]);
        assert init + [last] == cs && [last][1..] == [];
      }
    }
  }

  lemma {:induction false} CapOnePaths(tok: string -> nat, c: ChunkSpec, frames: nat)
    requires CapOne(tok, c, frames).Done?
    ensures Paths(CapOne(tok, c, frames).pieces) == {c.filePath} == Paths([c])
    ensures CapOne(tok, c, frames).pieces != []
  {
    CapOneNonEmpty(tok, c, frames);
    var ps, lines := CapOne(tok, c, frames).pieces, SplitLines(c.content);
    forall i | 0 <= i < |ps| ensures ps[i].filePath == c.filePath {
      if tok(c.content) > MAX_CHUNK_TOKENS && |lines| > 1 {
        SplitIsCut(tok, c, lines, frames);
        CutsLinesAt(tok, c, ps, c.startLine, lines, 0, |lines|, i);
      }
    }
    PathsOfOneFile(ps, c.filePath);
    PathsOfOneFile([c], c.filePath);
  }

  // Capping neither adds nor drops a file, nor loses a chunk.
  lemma {:induction false} CapAllKeepsPaths(tok: string -> nat, cs: seq<ChunkSpec>, frames: nat)
    requires CapAll(tok, cs, frames).Done?
    ensures Paths(CapAll(tok, cs, frames).pieces) == Paths(cs)
    ensures |CapAll(tok, cs, frames).pieces| >= |cs|
    decreases |cs|
  {
    if cs != [] {
      var n := |cs| - 1;
      CapAllKeepsPaths(tok, cs[..n], frames);
      CapOnePaths(tok, cs[n], frames);
      PathsConcat(CapAll(tok, cs[..n], frames).pieces, CapOne(tok, cs[n], frames).pieces);
      PathsConcat(cs[..n], [cs[n]]);
      assert cs[..n] + [cs[n]] == cs;
    }
  }

  // A single line over the cap with no more characters than are kept is stored
  // as it is, and stays over the cap.
  lemma {:induction false} ShortLineStaysOver(tok: string -> nat, c: ChunkSpec, frames: nat)
    requires tok(c.content) > MAX_CHUNK_TOKENS && |SplitLines(c.content)| <= 1
    requires |c.content| <= MAX_SINGLE_LINE_CHARS
    ensures CapOne(tok, c, frames) == Done([c]) && !AllFit(tok, [c])
  {
    assert Trimmed(c) == c && [c][0].content == c.content;
  }

  // The start of a single line is a single line.
  lemma {:induction false} LinePrefix(line: string, n: nat)
    requires |SplitLines(line)| <= 1 && n <= |line|
    ensures |SplitLines(line[..n])| <= 1
  {
    if 0 < n {
      LineCount(line);
      LineCount(line[..n]);
      var short, long := line[..n][..n - 1], line[..|line| - 1];
      NewlinesConcat(short, long[n - 1..]);
      assert long == short + long[n - 1..];
    }
  }

  ghost predicate TrimWorks(tok: string -> nat, c: ChunkSpec) {
    tok(c.content) > MAX_CHUNK_TOKENS && |SplitLines(c.content)| <= 1 ==> AllFit(tok, CapOne(tok, c, 0).pieces)
  }

  // Every text of one line and at most 21000 characters is within the cap.
  ghost predicate ShortLinesFit(tok: string -> nat) {
    forall line: string | |SplitLines(line)| <= 1 && |line| <= MAX_SINGLE_LINE_CHARS :: tok(line) <= MAX_CHUNK_TOKENS
  }

  // The cut bounds characters, not tokens: it brings every overlong line under
  // the cap exactly for tokenizers that give no short line too many tokens.
  lemma {:induction false} TrimWorksIffShortLinesFit(tok: string -> nat)
    ensures (forall c: ChunkSpec :: TrimWorks(tok, c)) <==> ShortLinesFit(tok)
  {
    if ShortLinesFit(tok) {
      forall c: ChunkSpec ensures TrimWorks(tok, c) {
        if tok(c.content) > MAX_CHUNK_TOKENS && |SplitLines(c.content)| <= 1 {
          LinePrefix(c.content, |Take(c.content, MAX_SINGLE_LINE_CHARS)|);
          assert CapOne(tok, c, 0).pieces == [Trimmed(c)];
        }
      }
    } else {
      var line: string :| |SplitLines(line)| <= 1 && |line| <= MAX_SINGLE_LINE_CHARS && tok(line) > MAX_CHUNK_TOKENS;
      var c := ChunkSpec("", "", 1, 1, line);
      ShortLineStaysOver(tok, c, 0);
      assert !TrimWorks(tok, c);
    }
  }

  // One token a character: the result of cutting 30 000 characters is over the cap.
  lemma {:induction false} TrimMayMissCap()
    ensures exists tok: string -> nat, c: ChunkSpec ::
              CapOne(tok, c, 1000).Done? && !AllFit(tok, CapOne(tok, c, 1000).pieces)
  {
    var tok: string -> nat := (s: string) => |s|;
    var line := seq(30_000, _ => 'x');
    var c := ChunkSpec("bundle.js", "javascript", 1, 1, line);
    SplitOneLine(line);
    var ps := CapOne(tok, c, 1000).pieces;
    assert ps == [Trimmed(c)] && tok(ps[0].content) == 21_000;
  }

  // ---- When capping a list finishes ----

  // A chunk to be halved with a line that the halving never gets past.
  ghost predicate HasStuckLine(tok: string -> nat, c: ChunkSpec) {
    var lines := SplitLines(c.content);
    tok(c.content) > MAX_CHUNK_TOKENS && |lines| > 1 && !NoneStuck(tok, lines, 0, |lines|)
  }

  ghost predicate EnoughFrames(cs: seq<ChunkSpec>, frames: nat) {
    forall k | 0 <= k < |cs| :: frames >= Height(|SplitLines(cs[k].content)|)
  }

  lemma {:induction false} CapOneFinishesIff(tok: string -> nat, c: ChunkSpec, frames: nat)
    requires frames >= Height(|SplitLines(c.content)|)
    ensures CapOne(tok, c, frames).Done? <==> !HasStuckLine(tok, c)
  {
    var lines := SplitLines(c.content);
    if |lines| > 1 {
      SplitFinishesIff(tok, c, lines, frames);
    }
  }

  lemma {:induction false} CapAllDone(tok: string -> nat, cs: seq<ChunkSpec>, frames: nat)
    requires cs != []
    ensures CapAll(tok, cs, frames).Done?
       <==> CapAll(tok, cs[..|cs| - 1], frames).Done? && CapOne(tok, cs[|cs| - 1], frames).Done?
    ensures CapAll(tok, cs, frames).Done? ==>
      CapAll(tok, cs, frames).pieces
          == CapAll(tok, cs[..|cs| - 1], frames).pieces + CapOne(tok, cs[|cs| - 1], frames).pieces
  {
  }

  // Capping a list of chunks finishes exactly when none of them has a stuck line.
  lemma {:induction false} CapAllFinishesIff(tok: string -> nat, cs: seq<ChunkSpec>, frames: nat)
    requires EnoughFrames(cs, frames)
    ensures CapAll(tok, cs, frames).Done? <==> NoneHasStuckLine(tok, cs)
    decreases |cs|
  {
    if cs != [] {
      var init, last := cs[..|cs| - 1], cs[|cs| - 1];
      assert CapAll(tok, init, frames).Done? <==> NoneHasStuckLine(tok, init) by {
        CapAllFinishesIff(tok, init, frames);
      }
      assert CapOne(tok, last, frames).Done? <==> !HasStuckLine(tok, last) by {
        CapOneFinishesIff(tok, last, frames);
      }
      CapAllDone(tok, cs, frames);
      NoneStuckSplit(tok, cs);
    }
  }

  ghost predicate NoneHasStuckLine(tok: string -> nat, cs: seq<ChunkSpec>) {
    forall k | 0 <= k < |cs| :: !HasStuckLine(tok, cs[k])
  }

  lemma {:induction false} NoneStuckSplit(tok: string -> nat, cs: seq<ChunkSpec>)
    requires cs != []
    ensures NoneHasStuckLine(tok, cs) <==> NoneHasStuckLine(tok, cs[..|cs| - 1]) && !HasStuckLine(tok, cs[|cs| - 1])
  {
    var init := cs[..|cs| - 1];
    assert forall k | 0 <= k < |init| :: init[k] == cs[k];
    assert forall k | 0 <= k < |cs| - 1 :: cs[k] == init[k];
  }

  ghost predicate NeverCapped(tok: string -> nat, c: ChunkSpec) {
    forall frames: nat :: CapAll(tok, [c], frames) == RecursionLimit
  }

  // Two lines, the first and both together over the cap.
  lemma {:induction false} FirstLineStuck(tok: string -> nat, c: ChunkSpec, a: string, b: string)
    requires SplitLines(c.content) == [a, b] && tok(c.content) > MAX_CHUNK_TOKENS
    requires tok(a) > MAX_CHUNK_TOKENS && tok(Join([a, b])) > MAX_CHUNK_TOKENS
    ensures HasStuckLine(tok, c)
  {
    var lines := SplitLines(c.content);
    assert lines[0..1] == [a] && lines[0..2] == lines && Cut(0, 2) == 1;
    assert Stuck(tok, lines, 0, 1, 0);
    assert Stuck(tok, lines, 0, 2, 0);
  }

  lemma {:induction false} StuckLineNeverCapped(tok: string -> nat, c: ChunkSpec)
    requires HasStuckLine(tok, c)
    ensures NeverCapped(tok, c)
  {
    var lines := SplitLines(c.content);
    var i: nat :| i < |lines| && Stuck(tok, lines, 0, |lines|, i);
    forall frames: nat ensures CapAll(tok, [c], frames) == RecursionLimit {
      StuckDiverges(tok, c, lines, 0, |lines|, i, frames);
      CapAllDone(tok, [c], frames);
    }
  }

  // A chunk of two lines that is never capped, whatever the call depth.
  lemma {:induction false} CappingMayDiverge() returns (tok: string -> nat, c: ChunkSpec)
    ensures |SplitLines(c.content)| == 2 && NeverCapped(tok, c)
  {
    tok := (s: string) => 8_000;
    var a, b := seq(1, _ => 'a'), seq(1, _ => 'b');
    c := ChunkSpec("bundle.js", "javascript", 1, 2, Join([a, b]));
    SplitLinesJoin([a, b]);
    FirstLineStuck(tok, c, a, b);
    StuckLineNeverCapped(tok, c);
  }

  // Files above 200 KB are not indexed, so no chunk has more lines than that
  // and halving it stays far below Python's default limit of 1000 frames.
  lemma {:induction false} IndexedFilesNeedFewFrames(n: nat)
    requires n <= 200 * 1024
    ensures Height(n) <= 19
  {
    assert Pow2(6) == 64 && Pow2(12) == 4_096 && Pow2(18) == 262_144;
    HeightBound(n, 18);
  }
}
