// From the files of a repository to the rows that a pass stores: chunk every
// file, cap all chunks together, embed them, pair them with their vectors.

module IndexedRows {
  import opened Text
  import opened Chunks
  import opened AstChunker
  import opened LineChunkers
  import opened Markdown
  import opened TokenCap
  import opened FileChunks
  import opened StoredChunks
  import opened RepoStore
  import EmbedLoop

  datatype SourceFile = SourceFile(cfg: Config, parse: Parse)

  // The run's tokenizer, and a tree as the parser guarantees it.
  ghost predicate FileOk(tok: string -> nat, file: SourceFile) {
    && file.cfg.tok == tok
    && (file.parse.Parsed? ==> TreeOf(file.cfg.src, file.parse.root))
  }

  function ChunksOfFile(file: SourceFile): seq<ChunkSpec> {
    if Blank(file.cfg.src) then [] else Dispatch(file.cfg, file.parse).0
  }

  function Parts(files: seq<SourceFile>): seq<seq<ChunkSpec>> {
    seq(|files|, f requires 0 <= f < |files| => ChunksOfFile(files[f]))
  }

  function Flatten(parts: seq<seq<ChunkSpec>>): seq<ChunkSpec> {
    if parts == [] then [] else Flatten(parts[..|parts| - 1]) + parts[|parts| - 1]
  }

  // The chunks of all files, in order; a blank file has none.
  function RepoChunks(files: seq<SourceFile>): seq<ChunkSpec> {
    Flatten(Parts(files))
  }

  method ChunkRepo(files: seq<SourceFile>) returns (out: seq<ChunkSpec>)
    requires forall f | 0 <= f < |files| :: files[f].cfg.target > 0
    ensures out == RepoChunks(files)
  {
    out := [];
    for i := 0 to |files|
      invariant out == Flatten(Parts(files)[..i])
    {
      var file := files[i];
      assert Parts(files)[..i + 1][..i] == Parts(files)[..i];
      if Blank(file.cfg.src) {
        continue;
      }
      var chunks, mode := DispatchChunker(file.cfg, file.parse);
      out := out + chunks;
    }
    assert Parts(files)[..|files|] == Parts(files);
  }

  // ---- Which file a chunk is from ----

  lemma {:induction false} FromSomePart(parts: seq<seq<ChunkSpec>>, n: nat) returns (f: nat, k: nat)
    requires n < |Flatten(parts)|
    ensures f < |parts| && k < |parts[f]| && Flatten(parts)[n] == parts[f][k]
    decreases |parts|
  {
    var before := Flatten(parts[..|parts| - 1]);
    if n < |before| {
      f, k := FromSomePart(parts[..|parts| - 1], n);
    } else {
      f, k := |parts| - 1, n - |before|;
    }
  }

  lemma {:induction false} PartIsThere(parts: seq<seq<ChunkSpec>>, f: nat, k: nat) returns (n: nat)
    requires f < |parts| && k < |parts[f]|
    ensures n < |Flatten(parts)| && Flatten(parts)[n] == parts[f][k]
    decreases |parts|
  {
    var front, last := parts[..|parts| - 1], parts[|parts| - 1];
    if f < |front| {
      assert front[f] == parts[f];
      n := PartIsThere(front, f, k);
    } else {
      n := |Flatten(front)| + k;
    }
  }

  lemma {:induction false} SectionMarks(path: string, lines: seq<string>, start: nat, end: nat, k: nat)
    requires start <= end <= |lines| && k < |Section(path, lines, start, end)|
    ensures Section(path, lines, start, end)[k].filePath == path
    ensures Section(path, lines, start, end)[k].language == "markdown"
  {
    SlidingMarks(Join(lines[start..end]), path, "markdown", SLIDING_WINDOW_LINES, SLIDING_OVERLAP_LINES);
  }

  lemma {:induction false} SectionsMark(path: string, lines: seq<string>, bs: seq<nat>, k: nat, i: nat)
    requires Bounds(bs, |lines|) && k < |bs| && i < |Sections(path, lines, bs, k)|
    ensures Sections(path, lines, bs, k)[i].filePath == path && Sections(path, lines, bs, k)[i].language == "markdown"
  {
    var before := Sections(path, lines, bs, k - 1);
    var last := LastSection(path, lines, bs, k);
    if i < |before| {
      SectionsMark(path, lines, bs, k - 1, i);
    } else {
      SectionMarks(path, lines, bs[k - 1], bs[k], i - |before|);
    }
  }

  // Every chunk carries the path and the language of its file.
  lemma {:induction false} DispatchMarks(cfg: Config, parse: Parse, k: nat)
    requires k < |Dispatch(cfg, parse).0|
    ensures Dispatch(cfg, parse).0[k].filePath == cfg.filePath && Dispatch(cfg, parse).0[k].language == cfg.language
  {
    if FallsBackToMarkdown(cfg, parse) {
      var lines := SplitLines(cfg.src);
      BoundariesOk(lines);
      SectionsMark(cfg.filePath, lines, Boundaries(lines), |Boundaries(lines)| - 1, k);
    } else {
      SlidingMarks(cfg.src, cfg.filePath, cfg.language, SLIDING_WINDOW_LINES, SLIDING_OVERLAP_LINES);
    }
  }

  lemma {:induction false} PieceMarks(cfg: Config, parse: Parse, frames: nat, k: nat, j: nat)
    requires parse.Parsed? ==> TreeOf(cfg.src, parse.root)
    requires k < |Dispatch(cfg, parse).0| && CapOne(cfg.tok, Dispatch(cfg, parse).0[k], frames).Done?
    requires j < |CapOne(cfg.tok, Dispatch(cfg, parse).0[k], frames).pieces|
    ensures
      var p := CapOne(cfg.tok, Dispatch(cfg, parse).0[k], frames).pieces[j];
      p.filePath == cfg.filePath && p.language == cfg.language
  {
    DispatchMarks(cfg, parse, k);
    DispatchWellLined(cfg, parse, k);
    CapOneOrigin(cfg.tok, Dispatch(cfg, parse).0[k], frames, j);
  }

  // ---- Where a stored row is from ----

  // Every stored row belongs to one of the files, meets the line checks, has
  // its own token count, and is cut from that file at its line range.
  lemma {:induction false} RowIsCut(files: seq<SourceFile>, tok: string -> nat, frames: nat,
                                    provider: EmbedLoop.Provider, i: nat)
    returns (f: nat, b: nat, e: nat)
    requires forall g | 0 <= g < |files| :: FileOk(tok, files[g])
    requires EmbedLoop.Fill(tok, frames, Some(provider), RepoChunks(files)).Filled?
    requires i < |EmbedLoop.Fill(tok, frames, Some(provider), RepoChunks(files)).inserts|
    ensures
      var row := EmbedLoop.Fill(tok, frames, Some(provider), RepoChunks(files)).inserts[i];
      && f < |files| && row.chunk.filePath == files[f].cfg.filePath && row.chunk.language == files[f].cfg.language
      && LinesOk(row.chunk) && row.tokenCount == tok(row.chunk.content) && |row.embedding| == 1536
      && StoredFrom(tok, row.chunk, files[f].cfg.src, b, e)
  {
    EmbedLoop.FilledRows(tok, frames, provider, RepoChunks(files));
    var n, j := PieceOfSome(tok, RepoChunks(files), frames, i);
    var k;
    f, k := FromSomePart(Parts(files), n);
    assert FileOk(tok, files[f]);
    var cfg, parse := files[f].cfg, files[f].parse;
    PieceMarks(cfg, parse, frames, k, j);
    b, e := DispatchIsCut(cfg, parse, k);
    b, e := CapOneIsCut(tok, Dispatch(cfg, parse).0[k], frames, j, cfg.src, b, e);
  }

  // Unless a line had to be cut short, every position of every file that is
  // not white space is in a stored row of that file whose range holds its row.
  lemma {:induction false} RowsShowAll(files: seq<SourceFile>, tok: string -> nat, frames: nat,
                                       provider: EmbedLoop.Provider, f: nat, p: nat)
    returns (i: nat, b: nat, e: nat)
    requires forall g | 0 <= g < |files| :: FileOk(tok, files[g])
    requires EmbedLoop.Fill(tok, frames, Some(provider), RepoChunks(files)).Filled?
    requires forall n | 0 <= n < |RepoChunks(files)| :: KeepsText(tok, RepoChunks(files)[n])
    requires f < |files| && p < |files[f].cfg.src| && !IsSpace(files[f].cfg.src[p])
    ensures
      var inserts := EmbedLoop.Fill(tok, frames, Some(provider), RepoChunks(files)).inserts;
      && i < |inserts| && inserts[i].chunk.filePath == files[f].cfg.filePath
      && ShowsAt(inserts[i].chunk, files[f].cfg.src, p, b, e)
  {
    var cs := RepoChunks(files);
    EmbedLoop.FilledRows(tok, frames, provider, cs);
    assert FileOk(tok, files[f]);
    var cfg, parse := files[f].cfg, files[f].parse;
    DispatchShowsAll(cfg, parse, p);
    var k: nat, x: nat, y: nat :| k < |Dispatch(cfg, parse).0| && ShowsAt(Dispatch(cfg, parse).0[k], cfg.src, p, x, y);
    var n := PartIsThere(Parts(files), f, k);
    EachIsDone(tok, cs, frames, n);
    var j;
    j, b, e := CapOneShows(tok, cs[n], frames, cfg.src, p, x, y);
    i := PieceIsThere(tok, cs, frames, n, j);
    PieceMarks(cfg, parse, frames, k, j);
  }

  // ---- Which rows hold a file's text ----

  lemma {:induction false} FlattenConcat(a: seq<seq<ChunkSpec>>, b: seq<seq<ChunkSpec>>)
    ensures Flatten(a + b) == Flatten(a) + Flatten(b)
    decreases |b|
  {
    if b == [] {
      assert a + b == a;
    } else {
      var front, last := b[..|b| - 1], b[|b| - 1];
      FlattenConcat(a, front);
      assert (a + b)[..|a + b| - 1] == a + front;
      assert Flatten(a) + Flatten(front) + last == Flatten(a) + (Flatten(front) + last);
    }
  }

  lemma {:induction false} FlattenAround(parts: seq<seq<ChunkSpec>>, f: nat)
    requires f < |parts|
    ensures Flatten(parts) == Flatten(parts[..f]) + parts[f] + Flatten(parts[f + 1..])
  {
    assert parts == parts[..f + 1] + parts[f + 1..] && parts[..f + 1][..f] == parts[..f];
    FlattenConcat(parts[..f + 1], parts[f + 1..]);
  }

  // Whatever capping makes of the part's chunks carries the path.
  ghost predicate Marked(tok: string -> nat, frames: nat, part: seq<ChunkSpec>, path: string) {
    forall k, j | 0 <= k < |part| && CapOne(tok, part[k], frames).Done?
                  && 0 <= j < |CapOne(tok, part[k], frames).pieces| ::
        CapOne(tok, part[k], frames).pieces[j].filePath == path
  }

  ghost predicate AllMarked(tok: string -> nat, frames: nat, parts: seq<seq<ChunkSpec>>, paths: seq<string>) {
    |parts| == |paths| && forall g | 0 <= g < |parts| :: Marked(tok, frames, parts[g], paths[g])
  }

  ghost predicate AllOf(cs: seq<ChunkSpec>, paths: seq<string>) {
    forall i | 0 <= i < |cs| :: cs[i].filePath in paths
  }

  lemma {:induction false} CappedPaths(tok: string -> nat, frames: nat, parts: seq<seq<ChunkSpec>>, paths: seq<string>)
    requires AllMarked(tok, frames, parts, paths) && CapAll(tok, Flatten(parts), frames).Done?
    ensures AllOf(CapAll(tok, Flatten(parts), frames).pieces, paths)
  {
    var cs := CapAll(tok, Flatten(parts), frames).pieces;
    forall i | 0 <= i < |cs| ensures cs[i].filePath in paths {
      var n, j := PieceOfSome(tok, Flatten(parts), frames, i);
      var g, k := FromSomePart(parts, n);
      assert Marked(tok, frames, parts[g], paths[g]);
    }
  }

  lemma {:induction false} CappedInThree(tok: string -> nat, a: seq<ChunkSpec>, b: seq<ChunkSpec>, c: seq<ChunkSpec>,
                                         frames: nat)
    requires CapAll(tok, a + b + c, frames).Done?
    ensures CapAll(tok, a, frames).Done? && CapAll(tok, b, frames).Done? && CapAll(tok, c, frames).Done?
    ensures CapAll(tok, a + b + c, frames).pieces
         == CapAll(tok, a, frames).pieces + CapAll(tok, b, frames).pieces + CapAll(tok, c, frames).pieces
  {
    CapAllConcat(tok, a + b, c, frames);
    CapAllConcat(tok, a, b, frames);
  }

  // Part f, capped, is a stretch of all capped together; around it are chunks
  // of the parts before and after.
  lemma {:induction false} StretchOfPart(tok: string -> nat, frames: nat, parts: seq<seq<ChunkSpec>>,
                                         paths: seq<string>, f: nat)
    returns (before: seq<ChunkSpec>, own: seq<ChunkSpec>, after: seq<ChunkSpec>)
    requires f < |parts| && AllMarked(tok, frames, parts, paths) && CapAll(tok, Flatten(parts), frames).Done?
    ensures CapAll(tok, parts[f], frames) == Done(own)
    ensures CapAll(tok, Flatten(parts), frames).pieces == before + own + after
    ensures AllOf(before, paths[..f]) && AllOf(own, [paths[f]]) && AllOf(after, paths[f + 1..])
  {
    FlattenAround(parts, f);
    CappedInThree(tok, Flatten(parts[..f]), parts[f], Flatten(parts[f + 1..]), frames);
    before := CapAll(tok, Flatten(parts[..f]), frames).pieces;
    own := CapAll(tok, parts[f], frames).pieces;
    after := CapAll(tok, Flatten(parts[f + 1..]), frames).pieces;
    CappedPaths(tok, frames, parts[..f], paths[..f]);
    CappedPaths(tok, frames, parts[f + 1..], paths[f + 1..]);
    assert Flatten([parts[f]]) == parts[f] by {
      assert [parts[f]][..0] == [];
    }
    CappedPaths(tok, frames, [parts[f]], [paths[f]]);
  }

  function RowChunks(inserts: seq<ChunkInsert>): seq<ChunkSpec> {
    seq(|inserts|, i requires 0 <= i < |inserts| => inserts[i].chunk)
  }

  function PathsOf(files: seq<SourceFile>): seq<string> {
    seq(|files|, f requires 0 <= f < |files| => files[f].cfg.filePath)
  }

  lemma {:induction false} FilesMarked(files: seq<SourceFile>, tok: string -> nat, frames: nat)
    requires forall g | 0 <= g < |files| :: FileOk(tok, files[g])
    ensures AllMarked(tok, frames, Parts(files), PathsOf(files))
  {
    forall g | 0 <= g < |files| ensures Marked(tok, frames, Parts(files)[g], PathsOf(files)[g]) {
      FileMarked(files[g], tok, frames);
    }
  }

  lemma {:induction false} FileMarked(file: SourceFile, tok: string -> nat, frames: nat)
    requires FileOk(tok, file)
    ensures Marked(tok, frames, ChunksOfFile(file), file.cfg.filePath)
  {
    var part := ChunksOfFile(file);
    forall k, j | 0 <= k < |part| && CapOne(tok, part[k], frames).Done?
                  && 0 <= j < |CapOne(tok, part[k], frames).pieces|
      ensures CapOne(tok, part[k], frames).pieces[j].filePath == file.cfg.filePath
    {
      PieceMarks(file.cfg, file.parse, frames, k, j);
    }
  }

  // For a file chunked by structure none of whose lines had to be cut short,
  // some stretch of the rows is its own and holds its non-white-space text
  // exactly once and in order; the rows around it are of other files.
  lemma {:induction false} RowsHoldText(files: seq<SourceFile>, tok: string -> nat, frames: nat,
                                        provider: EmbedLoop.Provider, f: nat)
    returns (before: seq<ChunkSpec>, own: seq<ChunkSpec>, after: seq<ChunkSpec>)
    requires forall g | 0 <= g < |files| :: FileOk(tok, files[g])
    requires EmbedLoop.Fill(tok, frames, Some(provider), RepoChunks(files)).Filled?
    requires f < |files| && Structural(files[f].cfg, files[f].parse)
    requires forall k | 0 <= k < |ChunksOfFile(files[f])| :: KeepsText(tok, ChunksOfFile(files[f])[k])
    ensures RowChunks(EmbedLoop.Fill(tok, frames, Some(provider), RepoChunks(files)).inserts) == before + own + after
    ensures InkOf(own) == Ink(files[f].cfg.src)
    ensures AllOf(before, PathsOf(files)[..f]) && AllOf(own, [files[f].cfg.filePath])
    ensures AllOf(after, PathsOf(files)[f + 1..])
  {
    assert CapAll(tok, RepoChunks(files), frames)
        == Done(RowChunks(EmbedLoop.Fill(tok, frames, Some(provider), RepoChunks(files)).inserts)) by {
      EmbedLoop.FilledRows(tok, frames, provider, RepoChunks(files));
    }
    FilesMarked(files, tok, frames);
    before, own, after := StretchOfPart(tok, frames, Parts(files), PathsOf(files), f);
    assert FileOk(tok, files[f]);
    OwnText(files[f], tok, frames);
  }

  lemma {:induction false} OwnText(file: SourceFile, tok: string -> nat, frames: nat)
    requires FileOk(tok, file) && Structural(file.cfg, file.parse)
    requires CapAll(tok, ChunksOfFile(file), frames).Done?
    requires forall k | 0 <= k < |ChunksOfFile(file)| :: KeepsText(tok, ChunksOfFile(file)[k])
    ensures InkOf(CapAll(tok, ChunksOfFile(file), frames).pieces) == Ink(file.cfg.src)
  {
    CapAllKeepsText(tok, ChunksOfFile(file), frames);
    StructuralKeepsText(file.cfg, file.parse);
    if Blank(file.cfg.src) {
      InkOfBlank(file.cfg.src);
    }
  }

  // ---- In the table ----

  // After a successful pass every chunk in the table for the repository is one
  // of its rows: cut from a file at its line range, with its own token count, a
  // vector of the right size, and the embedder of the pass.
  lemma {:induction false} TableIsCut(db: Db, id: nat, embedder: Embedder, now: int, files: seq<SourceFile>,
                                      tok: string -> nat, frames: nat, provider: EmbedLoop.Provider, c: CodeChunk)
    returns (f: nat, b: nat, e: nat)
    requires Consistent(db) && id in db.repos && forall g | 0 <= g < |files| :: FileOk(tok, files[g])
    requires
      var planned := EmbedLoop.Fill(tok, frames, Some(provider), RepoChunks(files));
      planned.Filled? && c in EmbedLoop.Stored(db, id, planned, embedder, now).chunks && c.repoId == id
    ensures f < |files| && StoredFrom(tok, c.insert.chunk, files[f].cfg.src, b, e) && LinesOk(c.insert.chunk)
    ensures c.insert.chunk.filePath == files[f].cfg.filePath && c.insert.chunk.language == files[f].cfg.language
    ensures c.insert.tokenCount == tok(c.insert.chunk.content) && |c.insert.embedding| == 1536 && c.embedder == embedder
  {
    var planned := EmbedLoop.Fill(tok, frames, Some(provider), RepoChunks(files));
    var i := EmbedLoop.RowInTable(db, id, planned, embedder, now, c);
    f, b, e := RowIsCut(files, tok, frames, provider, i);
  }
}
