// One file through the chunkers: structural chunking where a syntax tree is
// available, Markdown sections or sliding windows where it is not, and then
// the token cap.

module FileChunks {
  import opened Text
  import opened Chunks
  import opened SyntaxTree
  import opened AstChunker
  import opened AstTheorems
  import opened LineChunkers
  import opened Markdown
  import opened TokenCap

  // BadTarget is the ValueError for a non-positive budget; Fallback is the
  // None that asks the caller to chunk by lines.
  datatype AstResult = BadTarget | Fallback | Chunked(chunks: seq<ChunkSpec>)

  // What the dispatcher finds for a file: no grammar for its language; an
  // exception that structural chunking of a file with text lets escape; one
  // that it turns into a None; or a tree.
  datatype Parse = NoGrammar | Raised | NoTree | Parsed(root: Node)

  function Root(parse: Parse): Option<Node> {
    if parse.Parsed? then Some(parse.root) else None
  }

  // How a file was chunked, as reported in the routing log.
  datatype Mode = Ast | SlidingNoGrammar | SlidingParseFailed | SlidingNoExtension

  // `tree` is the parsed root, or None when the grammar is unknown or loading
  // it or parsing the content fails.
  method ChunkWithTreesitter(content: string, language: string, path: string, kinds: set<string>, tok: string -> nat,
                             targetTokens: int, tree: Option<Node>)
    returns (r: AstResult)
    ensures r.BadTarget? <==> targetTokens <= 0
    ensures targetTokens > 0 ==>
              r == TreesitterChunks(Config(content, path, language, kinds, tok, targetTokens), tree)
  {
    if targetTokens <= 0 {
      return BadTarget;
    }
    if Blank(content) {
      return Chunked([]);
    }
    if tree.None? {
      return Fallback;
    }
    var chunks := ChunkSubtree(Config(content, path, language, kinds, tok, targetTokens), tree.value);
    if chunks == [] {
      return Fallback;
    }
    return Chunked(chunks);
  }

  function TreesitterChunks(cfg: Config, tree: Option<Node>): AstResult {
    if Blank(cfg.src) then Chunked([])
    else if tree.None? then Fallback
    else
      var cs := ChunksOf(cfg, Pieces(cfg, tree.value));
      if cs == [] then Fallback else Chunked(cs)
  }

  // An empty result means blank content; falling back means no tree or no
  // declaration in it; otherwise there are chunks.
  lemma {:induction false} TreesitterContract(cfg: Config, tree: Option<Node>)
    ensures TreesitterChunks(cfg, tree) == Chunked([]) <==> Blank(cfg.src)
    ensures TreesitterChunks(cfg, tree) == Fallback
       <==> !Blank(cfg.src) && (tree.None? || Top(cfg.kinds, tree.value.named) == [])
  {
    if tree.Some? {
      PiecesExist(cfg, tree.value);
    }
  }

  function Dispatch(cfg: Config, parse: Parse): (seq<ChunkSpec>, Mode) {
    var windows := Sliding(cfg.src, cfg.filePath, cfg.language, SLIDING_WINDOW_LINES, SLIDING_OVERLAP_LINES);
    if cfg.language == "other" then (windows, SlidingNoExtension)
    else if parse.NoGrammar? then (windows, SlidingNoGrammar)
    else if parse.Raised? && !Blank(cfg.src) then (windows, SlidingParseFailed)
    else
      var r := TreesitterChunks(cfg, Root(parse));
      if !r.Chunked? || (r.chunks == [] && !Blank(cfg.src)) then
        (if cfg.language == "markdown" then MarkdownChunks(cfg.src, cfg.filePath) else windows, SlidingParseFailed)
      else (r.chunks, Ast)
  }

  predicate FallsBackToMarkdown(cfg: Config, parse: Parse) {
    Dispatch(cfg, parse).1 == SlidingParseFailed && !parse.Raised? && cfg.language == "markdown"
  }

  method DispatchChunker(cfg: Config, parse: Parse) returns (chunks: seq<ChunkSpec>, mode: Mode)
    requires cfg.target > 0
    ensures (chunks, mode) == Dispatch(cfg, parse)
    ensures RoutedRight(cfg, parse, chunks, mode)
  {
    DispatchRoutes(cfg, parse);
    if cfg.language == "other" {
      chunks := ChunkSliding(cfg.src, cfg.filePath, cfg.language);
      return chunks, SlidingNoExtension;
    }
    if parse.NoGrammar? {
      chunks := ChunkSliding(cfg.src, cfg.filePath, cfg.language);
      return chunks, SlidingNoGrammar;
    }
    if parse.Raised? && !Blank(cfg.src) {
      chunks := ChunkSliding(cfg.src, cfg.filePath, cfg.language);
      return chunks, SlidingParseFailed;
    }
    var r := ChunkWithTreesitter(cfg.src, cfg.language, cfg.filePath, cfg.kinds, cfg.tok, cfg.target, Root(parse));
    if !r.Chunked? || (r.chunks == [] && !Blank(cfg.src)) {
      if cfg.language == "markdown" {
        chunks := ChunkMarkdown(cfg.src, cfg.filePath);
      } else {
        chunks := ChunkSliding(cfg.src, cfg.filePath, cfg.language);
      }
      return chunks, SlidingParseFailed;
    }
    return r.chunks, Ast;
  }

  // ---- Which chunker a file goes to ----

  // A blank file, or one with a tree in which a wanted declaration lies.
  predicate Structural(cfg: Config, parse: Parse) {
    && cfg.language != "other" && !parse.NoGrammar?
    && (Blank(cfg.src) || (parse.Parsed? && Top(cfg.kinds, parse.root.named) != []))
  }

  // Each mode on exactly its files, and each file's chunks: none for a blank
  // one, the declarations' pieces, heading sections for Markdown that cannot be
  // chunked by structure, and windows of 80 lines overlapping by 10 otherwise.
  predicate RoutedRight(cfg: Config, parse: Parse, chunks: seq<ChunkSpec>, mode: Mode) {
    && (mode == SlidingNoExtension <==> cfg.language == "other")
    && (mode == SlidingNoGrammar <==> cfg.language != "other" && parse.NoGrammar?)
    && (mode == Ast <==> Structural(cfg, parse))
    && (if Structural(cfg, parse) then
          if Blank(cfg.src) then chunks == [] else chunks == ChunksOf(cfg, Pieces(cfg, parse.root))
        else if cfg.language == "markdown" && (parse.NoTree? || parse.Parsed?) then
          chunks == MarkdownChunks(cfg.src, cfg.filePath)
        else
          chunks == Sliding(cfg.src, cfg.filePath, cfg.language, 80, 10))
  }

  lemma {:induction false} DispatchRoutes(cfg: Config, parse: Parse)
    ensures RoutedRight(cfg, parse, Dispatch(cfg, parse).0, Dispatch(cfg, parse).1)
  {
    TreesitterContract(cfg, Root(parse));
  }

  // A file chunked by structure keeps its non-white-space text, once and in order.
  lemma {:induction false} StructuralKeepsText(cfg: Config, parse: Parse)
    requires Structural(cfg, parse) && (parse.Parsed? ==> TreeOf(cfg.src, parse.root))
    ensures InkOf(Dispatch(cfg, parse).0) == Ink(cfg.src)
  {
    DispatchRoutes(cfg, parse);
    if Blank(cfg.src) {
      InkOfBlank(cfg.src);
    } else {
      ChunksConserveText(cfg, parse.root);
      InkTrim(cfg.src, parse.root.start, parse.root.end);
      assert Slice(cfg.src, parse.root.start, parse.root.end) == cfg.src[parse.root.start..parse.root.end];
    }
  }

  // ---- Nothing of a file is lost, whatever the route ----

  // What the parser guarantees: a well-formed tree inside the text that leaves
  // out only white space.
  ghost predicate TreeOf(src: string, root: Node) {
    && WellFormed(root) && root.end <= |src|
    && Blank(src[..root.start]) && Blank(src[root.end..])
  }

  // The chunk is cut from the file at b..e, its first line is b's, and
  // position p lies in it, on a row of its line range.
  ghost predicate ShowsAt(c: ChunkSpec, src: string, p: nat, b: nat, e: nat) {
    && b <= p < e <= |src|
    && c.content == src[b..e]
    && c.startLine == Row(src, b) + 1
    && Row(src, p) + 1 <= c.endLine
  }

  ghost predicate Shown(cs: seq<ChunkSpec>, src: string, p: nat) {
    exists k: nat, b: nat, e: nat :: k < |cs| && ShowsAt(cs[k], src, p, b, e)
  }

  lemma {:induction false} LineChunkShows(c: ChunkSpec, src: string, p: nat)
    requires p < |src| && !IsSpace(src[p])
    requires Faithful(c, SplitLines(src)) && c.startLine <= Row(src, p) + 1 <= c.endLine
    ensures exists b: nat, e: nat :: ShowsAt(c, src, p, b, e)
  {
    var ls := SplitLines(src);
    JoinSplitLines(src);
    var i: nat, j: nat := c.startLine - 1, c.endLine;
    LinesShow(ls, src, p, i, j);
    assert ShowsAt(c, src, p, Offset(ls, i), Offset(ls, j) - 1);
  }

  // Lines i..j are a slice of the text that starts on row i and holds every
  // position that is not white space on rows i to j - 1.
  lemma {:induction false} LinesShow(ls: seq<string>, src: string, p: nat, i: nat, j: nat)
    requires AllOneLine(ls) && (src == Join(ls) || src == Join(ls) + "\n")
    requires p < |src| && !IsSpace(src[p]) && i <= Row(src, p) < j <= |ls|
    ensures Offset(ls, i) <= p < Offset(ls, j) - 1 <= |src|
    ensures src[Offset(ls, i)..Offset(ls, j) - 1] == Join(ls[i..j]) && Row(src, Offset(ls, i)) == i
  {
    var r := Row(src, p);
    assert r == Row(Join(ls), p) by {
      RowInPrefix(Join(ls), src, p);
    }
    Locate(ls, p);
    OffsetMonotone(ls, i, r);
    OffsetMonotone(ls, r + 1, j);
    JoinIsSlice(ls, i, j);
    assert Row(src, Offset(ls, i)) == i by {
      RowOfOffset(ls, i);
      RowInPrefix(Join(ls), src, Offset(ls, i));
    }
  }

  lemma {:induction false} RowInPrefix(body: string, src: string, p: nat)
    requires p <= |body| <= |src| && body == src[..|body|]
    ensures Row(src, p) == Row(body, p)
  {
    assert Slice(src, 0, p) == Slice(body, 0, p);
  }

  // The line of a position that is not white space is not blank.
  lemma {:induction false} InkOnRow(src: string, p: nat)
    requires p < |src| && !IsSpace(src[p])
    ensures Row(src, p) < |SplitLines(src)| && !Blank(SplitLines(src)[Row(src, p)])
  {
    var ls := SplitLines(src);
    JoinSplitLines(src);
    assert Slice(src, 0, p) == Slice(Join(ls), 0, p);
    Locate(ls, p);
    var r := Row(src, p);
    JoinIsSlice(ls, r, r + 1);
    assert ls[r..r + 1] == [ls[r]];
    assert ls[r][p - Offset(ls, r)] == src[p];
  }

  lemma {:induction false} LineChunksShow(cs: seq<ChunkSpec>, src: string, p: nat)
    requires p < |src| && !IsSpace(src[p])
    requires forall k | 0 <= k < |cs| :: Faithful(cs[k], SplitLines(src))
    requires SomeChunkHasLine(cs, Row(src, p))
    ensures Shown(cs, src, p)
  {
    var k :| 0 <= k < |cs| && cs[k].startLine <= Row(src, p) + 1 <= cs[k].endLine;
    LineChunkShows(cs[k], src, p);
    var b: nat, e: nat :| ShowsAt(cs[k], src, p, b, e);
  }

  lemma {:induction false} AstShows(cfg: Config, root: Node, p: nat)
    requires TreeOf(cfg.src, root) && Top(cfg.kinds, root.named) != []
    requires p < |cfg.src| && !IsSpace(cfg.src[p])
    ensures Shown(ChunksOf(cfg, Pieces(cfg, root)), cfg.src, p)
  {
    var ps := Pieces(cfg, root);
    assert root.start <= p < root.end by {
      if p < root.start {
        BlankPrefixAt(cfg.src, root.start, p);
      } else if p >= root.end {
        BlankSuffixAt(cfg.src, root.end, p);
      }
    }
    PiecesCoverOnce(cfg, root);
    var i :| 0 <= i < |ps| && ps[i].start <= p < ps[i].end;
    PieceLines(cfg, ps[i]);
    assert ShowsAt(ChunksOf(cfg, ps)[i], cfg.src, p, ps[i].start, ps[i].end);
  }

  lemma {:induction false} WindowsShow(src: string, path: string, language: string, p: nat)
    requires p < |src| && !IsSpace(src[p])
    ensures Shown(Sliding(src, path, language, SLIDING_WINDOW_LINES, SLIDING_OVERLAP_LINES), src, p)
  {
    var ls, r := SplitLines(src), Row(src, p);
    InkOnRow(src, p);
    SlidesRow(path, language, ls, SLIDING_WINDOW_LINES, SLIDING_OVERLAP_LINES, 0);
    SlidesCover(path, language, ls, SLIDING_WINDOW_LINES, SLIDING_OVERLAP_LINES, 0, r);
    LineChunksShow(Slides(path, language, ls, SLIDING_WINDOW_LINES, SLIDING_OVERLAP_LINES, 0), src, p);
  }

  // Every character of a file that is not white space is in a chunk cut from
  // the file, and the chunk's line range says where.
  lemma {:induction false} DispatchShowsAll(cfg: Config, parse: Parse, p: nat)
    requires parse.Parsed? ==> TreeOf(cfg.src, parse.root)
    requires p < |cfg.src| && !IsSpace(cfg.src[p])
    ensures Shown(Dispatch(cfg, parse).0, cfg.src, p)
  {
    var (cs, mode) := Dispatch(cfg, parse);
    TreesitterContract(cfg, Root(parse));
    if mode == Ast {
      AstShows(cfg, parse.root, p);
    } else if FallsBackToMarkdown(cfg, parse) {
      InkOnRow(cfg.src, p);
      MarkdownFaithful(cfg.src, cfg.filePath);
      LineChunksShow(cs, cfg.src, p);
    } else {
      WindowsShow(cfg.src, cfg.filePath, cfg.language, p);
    }
  }

  // ---- Line ranges the database accepts ----

  ghost predicate WellLined(c: ChunkSpec) {
    LinesOk(c) && RoomForLines(c)
  }

  lemma {:induction false} FaithfulWellLined(c: ChunkSpec, lines: seq<string>)
    requires AllOneLine(lines) && Faithful(c, lines)
    ensures WellLined(c)
  {
    SplitLinesJoin(lines[c.startLine - 1..c.endLine]);
  }

  // A non-empty slice needs no more lines than its rows span.
  lemma {:induction false} SliceLineCount(src: string, a: nat, b: nat)
    requires a < b <= |src|
    ensures |SplitLines(Slice(src, a, b))| == Row(src, b - 1) - Row(src, a) + 1
  {
    var s, t := Slice(src, a, b), Slice(src, a, b - 1);
    assert s[..|s| - 1] == t;
    assert |SplitLines(s)| == Newlines(t) + 1 by {
      LineCount(s);
    }
    RowAdvance(src, a, b - 1);
  }

  lemma {:induction false} PieceWellLined(cfg: Config, p: Piece)
    requires p.start <= p.end <= |cfg.src|
    ensures WellLined(ChunkOf(cfg, p))
  {
    PieceLines(cfg, p);
    if p.start < p.end {
      SliceLineCount(cfg.src, p.start, p.end);
    }
  }

  lemma {:induction false} AstWellLined(cfg: Config, root: Node, k: nat)
    requires TreeOf(cfg.src, root) && Top(cfg.kinds, root.named) != []
    requires k < |Pieces(cfg, root)|
    ensures WellLined(ChunksOf(cfg, Pieces(cfg, root))[k])
  {
    PiecesCoverOnce(cfg, root);
    PieceWellLined(cfg, Pieces(cfg, root)[k]);
  }

  lemma {:induction false} LinesWellLined(cs: seq<ChunkSpec>, src: string, k: nat)
    requires k < |cs| && Faithful(cs[k], SplitLines(src))
    ensures WellLined(cs[k])
  {
    JoinSplitLines(src);
    FaithfulWellLined(cs[k], SplitLines(src));
  }

  lemma {:induction false} DispatchWellLined(cfg: Config, parse: Parse, k: nat)
    requires parse.Parsed? ==> TreeOf(cfg.src, parse.root)
    requires k < |Dispatch(cfg, parse).0|
    ensures WellLined(Dispatch(cfg, parse).0[k])
  {
    var (cs, mode) := Dispatch(cfg, parse);
    TreesitterContract(cfg, Root(parse));
    if mode == Ast {
      AstWellLined(cfg, parse.root, k);
    } else if FallsBackToMarkdown(cfg, parse) {
      MarkdownFaithful(cfg.src, cfg.filePath);
      LinesWellLined(cs, cfg.src, k);
    } else {
      SlidesRow(cfg.filePath, cfg.language, SplitLines(cfg.src), SLIDING_WINDOW_LINES, SLIDING_OVERLAP_LINES, 0);
      LinesWellLined(cs, cfg.src, k);
    }
  }
}
