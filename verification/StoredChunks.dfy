// What is stored for a file: its chunks after the token cap, and where in the
// file each of them was cut from.

module StoredChunks {
  import opened Text
  import opened Chunks
  import opened SyntaxTree
  import opened AstChunker
  import opened AstTheorems
  import opened LineChunkers
  import opened Markdown
  import opened TokenCap
  import opened FileChunks

  // The chunk's text is the file's from b to e; its range starts on the row of
  // b, holds the row of every position, and ends no later than the row of e.
  ghost predicate CutFrom(c: ChunkSpec, src: string, b: nat, e: nat) {
    && b <= e <= |src|
    && c.content == src[b..e]
    && c.startLine == Row(src, b) + 1
    && c.startLine <= c.endLine <= Row(src, e) + 1
    && forall q | b <= q < e :: c.startLine <= Row(src, q) + 1 <= c.endLine
  }

  // ---- Lines of a slice of the file ----

  lemma {:induction false} SliceInSlice(s: string, b: nat, e: nat, x: nat, y: nat)
    requires b <= e <= |s| && x <= y <= e - b
    ensures s[b..e][x..y] == s[b + x..b + y]
  {
    var inner := s[b..e][x..y];
    assert |inner| == y - x;
    assert forall k | 0 <= k < y - x :: inner[k] == s[b + x + k];
  }

  // Lines i..j of a slice of the file are a slice of the file, between rows.
  lemma {:induction false} LinesOfSlice(src: string, b: nat, e: nat, ls: seq<string>, i: nat, j: nat)
    returns (b': nat, e': nat)
    requires b <= e <= |src| && AllOneLine(ls) && i < j <= |ls|
    requires src[b..e] == Join(ls) || src[b..e] == Join(ls) + "\n"
    ensures b <= b' <= e' <= e && src[b'..e'] == Join(ls[i..j])
    ensures b' == b + Offset(ls, i) && e' == b + Offset(ls, j) - 1
    ensures Row(src, b') == Row(src, b) + i && Row(src, e') == Row(src, b) + j - 1
  {
    var x, y := Offset(ls, i), Offset(ls, j) - 1;
    JoinIsSlice(ls, i, j);
    b', e' := b + x, b + y;
    SliceInSlice(src, b, e, x, y);
    assert src[b..e][x..y] == Join(ls)[x..y];
    assert Row(src, b') == Row(src, b) + i by {
      RowOfOffset(ls, i);
      RowAdvance(src, b, b');
      SliceInSlice(src, b, e, 0, x);
      assert Slice(src, b, b') == Join(ls)[0..x] == Slice(Join(ls), 0, x);
    }
    assert Row(src, e') == Row(src, b') + j - 1 - i by {
      RowAdvance(src, b', e');
      assert Slice(src, b', e') == Join(ls[i..j]);
      SplitJoin(ls[i..j]);
      SplitFacts(Join(ls[i..j]));
    }
  }

  lemma {:induction false} RowsInRange(c: ChunkSpec, src: string, b: nat, e: nat)
    requires b <= e <= |src| && c.content == src[b..e]
    requires c.startLine == Row(src, b) + 1 && c.endLine == Row(src, e) + 1
    ensures CutFrom(c, src, b, e)
  {
    RowMonotone(src, b, e);
    forall q | b <= q < e ensures c.startLine <= Row(src, q) + 1 <= c.endLine {
      RowMonotone(src, b, q);
      RowMonotone(src, q, e);
    }
  }

  // ---- Dispatched chunks ----

  lemma {:induction false} PieceIsCut(cfg: Config, p: Piece)
    requires p.start <= p.end <= |cfg.src|
    ensures CutFrom(ChunkOf(cfg, p), cfg.src, p.start, p.end)
  {
    PieceLines(cfg, p);
    RowMonotone(cfg.src, LastByte(p.start, p.end), p.end);
  }

  lemma {:induction false} LinesAreCut(c: ChunkSpec, src: string) returns (b: nat, e: nat)
    requires Faithful(c, SplitLines(src))
    ensures CutFrom(c, src, b, e)
  {
    JoinSplitLines(src);
    assert src[0..|src|] == src;
    b, e := LinesOfSlice(src, 0, |src|, SplitLines(src), c.startLine - 1, c.endLine);
    RowsInRange(c, src, b, e);
  }

  // Every dispatched chunk is cut from the file, whichever chunker made it.
  lemma {:induction false} DispatchIsCut(cfg: Config, parse: Parse, k: nat) returns (b: nat, e: nat)
    requires parse.Parsed? ==> TreeOf(cfg.src, parse.root)
    requires k < |Dispatch(cfg, parse).0|
    ensures CutFrom(Dispatch(cfg, parse).0[k], cfg.src, b, e)
  {
    var (cs, mode) := Dispatch(cfg, parse);
    TreesitterContract(cfg, Root(parse));
    if mode == Ast {
      var p := Pieces(cfg, parse.root)[k];
      PiecesCoverOnce(cfg, parse.root);
      PieceIsCut(cfg, p);
      b, e := p.start, p.end;
    } else if FallsBackToMarkdown(cfg, parse) {
      MarkdownFaithful(cfg.src, cfg.filePath);
      b, e := LinesAreCut(cs[k], cfg.src);
    } else {
      SlidesRow(cfg.filePath, cfg.language, SplitLines(cfg.src), SLIDING_WINDOW_LINES, SLIDING_OVERLAP_LINES, 0);
      b, e := LinesAreCut(cs[k], cfg.src);
    }
  }

  // ---- Capped chunks ----

  // The stored chunk is cut from the file at b..e; or what was cut there is one
  // line over the cap, and the chunk holds its first 21000 characters.
  ghost predicate StoredFrom(tok: string -> nat, c: ChunkSpec, src: string, b: nat, e: nat) {
    || CutFrom(c, src, b, e)
    || (b <= e <= |src|
        && CutFrom(c.(content := src[b..e]), src, b, e)
        && tok(src[b..e]) > MAX_CHUNK_TOKENS && |SplitLines(src[b..e])| <= 1
        && c.content == Take(src[b..e], MAX_SINGLE_LINE_CHARS))
  }

  // d holds the lines of c's text that its line range names.
  ghost predicate HoldsLinesOf(d: ChunkSpec, c: ChunkSpec) {
    var lines := SplitLines(c.content);
    && c.startLine <= d.startLine <= d.endLine < c.startLine + |lines|
    && d.content == Join(lines[d.startLine - c.startLine..d.endLine + 1 - c.startLine])
  }

  lemma {:induction false} LinesOfCutAreCut(c: ChunkSpec, d: ChunkSpec, src: string, b: nat, e: nat)
    returns (b': nat, e': nat)
    requires CutFrom(c, src, b, e) && HoldsLinesOf(d, c)
    ensures b <= b' <= e' <= e && CutFrom(d, src, b', e')
  {
    JoinSplitLines(c.content);
    b', e' := LinesOfSlice(src, b, e, SplitLines(c.content), d.startLine - c.startLine, d.endLine + 1 - c.startLine);
    RowsInRange(d, src, b', e');
  }

  lemma {:induction false} PieceHoldsLines(tok: string -> nat, c: ChunkSpec, ps: seq<ChunkSpec>, i: nat)
    requires CutsLines(tok, c, ps, c.startLine, SplitLines(c.content), 0, |SplitLines(c.content)|) && i < |ps|
    ensures HoldsLinesOf(ps[i], c)
  {
    CutsLinesAt(tok, c, ps, c.startLine, SplitLines(c.content), 0, |SplitLines(c.content)|, i);
  }

  lemma {:induction false} CapOneIsCut(tok: string -> nat, c: ChunkSpec, frames: nat, i: nat, src: string, b: nat,
                                       e: nat)
    returns (b': nat, e': nat)
    requires CutFrom(c, src, b, e)
    requires CapOne(tok, c, frames).Done? && i < |CapOne(tok, c, frames).pieces|
    ensures b <= b' <= e' <= e && StoredFrom(tok, CapOne(tok, c, frames).pieces[i], src, b', e')
  {
    var ps := CapOne(tok, c, frames).pieces;
    if tok(c.content) > MAX_CHUNK_TOKENS && |SplitLines(c.content)| > 1 {
      assert CutsLines(tok, c, ps, c.startLine, SplitLines(c.content), 0, |SplitLines(c.content)|) by {
        SplitIsCut(tok, c, SplitLines(c.content), frames);
      }
      PieceHoldsLines(tok, c, ps, i);
      b', e' := LinesOfCutAreCut(c, ps[i], src, b, e);
    } else {
      b', e' := b, e;
      assert ps[i].(content := c.content) == c;
    }
  }

  // Piece i of a capped list is a piece of one of its chunks,
  lemma {:induction false} PieceOfSome(tok: string -> nat, cs: seq<ChunkSpec>, frames: nat, i: nat)
    returns (k: nat, j: nat)
    requires CapAll(tok, cs, frames).Done? && i < |CapAll(tok, cs, frames).pieces|
    ensures k < |cs| && CapOne(tok, cs[k], frames).Done? && j < |CapOne(tok, cs[k], frames).pieces|
    ensures CapAll(tok, cs, frames).pieces[i] == CapOne(tok, cs[k], frames).pieces[j]
    decreases |cs|
  {
    var n := |cs| - 1;
    var init := CapAll(tok, cs[..n], frames).pieces;
    CapAllDone(tok, cs, frames);
    if i < |init| {
      k, j := PieceOfSome(tok, cs[..n], frames, i);
    } else {
      k, j := n, i - |init|;
    }
  }

  // and every piece of each chunk is there.
  lemma {:induction false} PieceIsThere(tok: string -> nat, cs: seq<ChunkSpec>, frames: nat, k: nat, j: nat)
    returns (i: nat)
    requires CapAll(tok, cs, frames).Done? && k < |cs|
    requires CapOne(tok, cs[k], frames).Done? && j < |CapOne(tok, cs[k], frames).pieces|
    ensures i < |CapAll(tok, cs, frames).pieces|
              && CapAll(tok, cs, frames).pieces[i] == CapOne(tok, cs[k], frames).pieces[j]
    decreases |cs|
  {
    var front, last := cs[..|cs| - 1], cs[|cs| - 1];
    assert CapAll(tok, front, frames).Done? && CapOne(tok, last, frames).Done?
        && CapAll(tok, cs, frames).pieces == CapAll(tok, front, frames).pieces + CapOne(tok, last, frames).pieces by {
      CapAllDone(tok, cs, frames);
    }
    if k < |front| {
      assert front[k] == cs[k];
      i := PieceIsThere(tok, front, frames, k, j);
    } else {
      assert cs[k] == last;
      i := |CapAll(tok, front, frames).pieces| + j;
    }
  }

  lemma {:induction false} EachIsDone(tok: string -> nat, cs: seq<ChunkSpec>, frames: nat, k: nat)
    requires CapAll(tok, cs, frames).Done? && k < |cs|
    ensures CapOne(tok, cs[k], frames).Done?
    decreases |cs|
  {
    CapAllDone(tok, cs, frames);
    if k < |cs| - 1 {
      assert cs[..|cs| - 1][k] == cs[k];
      EachIsDone(tok, cs[..|cs| - 1], frames, k);
    }
  }

  function Stored(cfg: Config, parse: Parse, frames: nat): seq<ChunkSpec>
    requires CapAll(cfg.tok, Dispatch(cfg, parse).0, frames).Done?
  {
    CapAll(cfg.tok, Dispatch(cfg, parse).0, frames).pieces
  }

  // Every stored chunk, whichever chunker made it and however often it was
  // halved, meets the line checks, and is cut from the file at its line range:
  // the range starts on the row of its first position and holds the row of each.
  lemma {:induction false} StoredChunkIsCut(cfg: Config, parse: Parse, frames: nat, i: nat) returns (b: nat, e: nat)
    requires parse.Parsed? ==> TreeOf(cfg.src, parse.root)
    requires CapAll(cfg.tok, Dispatch(cfg, parse).0, frames).Done?
    requires i < |Stored(cfg, parse, frames)|
    ensures LinesOk(Stored(cfg, parse, frames)[i])
    ensures StoredFrom(cfg.tok, Stored(cfg, parse, frames)[i], cfg.src, b, e)
  {
    var cs := Dispatch(cfg, parse).0;
    var k, j := PieceOfSome(cfg.tok, cs, frames, i);
    b, e := DispatchIsCut(cfg, parse, k);
    b, e := CapOneIsCut(cfg.tok, cs[k], frames, j, cfg.src, b, e);
  }

  // A stored chunk lies inside the line range of the chunk it came from.
  lemma {:induction false} StoredChunkInParent(cfg: Config, parse: Parse, frames: nat, i: nat)
    requires parse.Parsed? ==> TreeOf(cfg.src, parse.root)
    requires CapAll(cfg.tok, Dispatch(cfg, parse).0, frames).Done?
    requires i < |Stored(cfg, parse, frames)|
    ensures FromSome(cfg.tok, Dispatch(cfg, parse).0, Stored(cfg, parse, frames)[i])
  {
    var cs := Dispatch(cfg, parse).0;
    forall k | 0 <= k < |cs| ensures RoomForLines(cs[k]) {
      DispatchWellLined(cfg, parse, k);
    }
    CapAllOrigin(cfg.tok, cs, frames, i);
  }

  // ---- Nothing is lost on the way to the table ----

  lemma {:induction false} PieceWithLine(tok: string -> nat, c: ChunkSpec, ps: seq<ChunkSpec>, first: int,
                                         lines: seq<string>, lo: nat, hi: nat, r: nat)
    returns (i: nat)
    requires CutsLines(tok, c, ps, first, lines, lo, hi) && lo <= r < hi
    ensures i < |ps| && ps[i].startLine <= first + r <= ps[i].endLine
    decreases |ps|
  {
    var mid := ps[0].endLine + 1 - first;
    if r < mid {
      i := 0;
    } else {
      i := PieceWithLine(tok, c, ps[1..], first, lines, mid, hi, r);
      i := i + 1;
    }
  }

  // Lines i..j of a chunk show a position on one of their rows.
  lemma {:induction false} LinesShowAt(c: ChunkSpec, d: ChunkSpec, src: string, p: nat, b: nat, e: nat)
    returns (b': nat, e': nat)
    requires ShowsAt(c, src, p, b, e) && !IsSpace(src[p]) && HoldsLinesOf(d, c)
    requires d.startLine <= Row(src, p) + 1 <= d.endLine
    ensures ShowsAt(d, src, p, b', e')
  {
    var lines, s, t := SplitLines(c.content), d.startLine - c.startLine, d.endLine + 1 - c.startLine;
    JoinSplitLines(c.content);
    assert c.content[p - b] == src[p];
    RowInSlice(src, b, e, p);
    LinesShow(lines, c.content, p - b, s, t);
    b', e' := LinesOfSlice(src, b, e, lines, s, t);
  }

  lemma {:induction false} RowInSlice(src: string, b: nat, e: nat, p: nat)
    requires b <= p < e <= |src|
    ensures Row(src, p) == Row(src, b) + Row(src[b..e], p - b)
  {
    RowAdvance(src, b, p);
    SliceInSlice(src, b, e, 0, p - b);
    assert Slice(src, b, p) == Slice(src[b..e], 0, p - b);
  }

  // A position that the chunk shows is shown by one of the pieces that cut its lines.
  lemma {:induction false} LinePieceShows(tok: string -> nat, c: ChunkSpec, ps: seq<ChunkSpec>, src: string, p: nat,
                                          b: nat, e: nat)
    returns (i: nat, b': nat, e': nat)
    requires ShowsAt(c, src, p, b, e) && !IsSpace(src[p])
    requires CutsLines(tok, c, ps, c.startLine, SplitLines(c.content), 0, |SplitLines(c.content)|)
    ensures i < |ps| && ShowsAt(ps[i], src, p, b', e')
  {
    var lines, r := SplitLines(c.content), Row(c.content, p - b);
    assert c.content[p - b] == src[p];
    InkOnRow(c.content, p - b);
    RowInSlice(src, b, e, p);
    i := PieceWithLine(tok, c, ps, c.startLine, lines, 0, |lines|, r);
    PieceHoldsLines(tok, c, ps, i);
    b', e' := LinesShowAt(c, ps[i], src, p, b, e);
  }

  lemma {:induction false} CapOneShows(tok: string -> nat, c: ChunkSpec, frames: nat, src: string, p: nat, b: nat,
                                       e: nat)
    returns (i: nat, b': nat, e': nat)
    requires ShowsAt(c, src, p, b, e) && !IsSpace(src[p]) && KeepsText(tok, c) && CapOne(tok, c, frames).Done?
    ensures i < |CapOne(tok, c, frames).pieces| && ShowsAt(CapOne(tok, c, frames).pieces[i], src, p, b', e')
  {
    if tok(c.content) > MAX_CHUNK_TOKENS {
      var ps := CapOne(tok, c, frames).pieces;
      assert CutsLines(tok, c, ps, c.startLine, SplitLines(c.content), 0, |SplitLines(c.content)|) by {
        SplitIsCut(tok, c, SplitLines(c.content), frames);
      }
      i, b', e' := LinePieceShows(tok, c, ps, src, p, b, e);
    } else {
      i, b', e' := 0, b, e;
    }
  }

  // Unless a line had to be cut short, every position of the file that is not
  // white space is in a stored chunk whose range holds its row.
  lemma {:induction false} StoredShowsAll(cfg: Config, parse: Parse, frames: nat, p: nat)
    requires parse.Parsed? ==> TreeOf(cfg.src, parse.root)
    requires CapAll(cfg.tok, Dispatch(cfg, parse).0, frames).Done?
    requires forall k | 0 <= k < |Dispatch(cfg, parse).0| :: KeepsText(cfg.tok, Dispatch(cfg, parse).0[k])
    requires p < |cfg.src| && !IsSpace(cfg.src[p])
    ensures Shown(Stored(cfg, parse, frames), cfg.src, p)
  {
    var cs := Dispatch(cfg, parse).0;
    DispatchShowsAll(cfg, parse, p);
    var k: nat, b: nat, e: nat :| k < |cs| && ShowsAt(cs[k], cfg.src, p, b, e);
    EachIsDone(cfg.tok, cs, frames, k);
    var j, b', e' := CapOneShows(cfg.tok, cs[k], frames, cfg.src, p, b, e);
    var i := PieceIsThere(cfg.tok, cs, frames, k, j);
    assert ShowsAt(Stored(cfg, parse, frames)[i], cfg.src, p, b', e');
  }

  // On the structural route, if no single line has to be cut short, capping
  // the chunks still loses and repeats nothing but white space.
  lemma {:induction false} StoredTextIsFileText(cfg: Config, root: Node, frames: nat)
    requires TreeOf(cfg.src, root) && Top(cfg.kinds, root.named) != []
    requires CapAll(cfg.tok, ChunksOf(cfg, Pieces(cfg, root)), frames).Done?
    requires forall k | 0 <= k < |ChunksOf(cfg, Pieces(cfg, root))| ::
              KeepsText(cfg.tok, ChunksOf(cfg, Pieces(cfg, root))[k])
    ensures InkOf(CapAll(cfg.tok, ChunksOf(cfg, Pieces(cfg, root)), frames).pieces) == Ink(cfg.src)
  {
    CapAllKeepsText(cfg.tok, ChunksOf(cfg, Pieces(cfg, root)), frames);
    ChunksConserveText(cfg, root);
    InkTrim(cfg.src, root.start, root.end);
    assert Slice(cfg.src, root.start, root.end) == cfg.src[root.start..root.end];
  }
}
