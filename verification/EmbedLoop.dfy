// Filling a repository: cap the chunks, embed them in batches, report progress,
// pair every chunk with its vector, and store the rows in one transaction.

module EmbedLoop {
  import opened Chunks
  import opened TokenCap
  import opened RepoStore

  const MAX_CHUNKS_PER_REPO := 5000
  const EMBED_BATCH_SIZE := 100
  const EXPECTED_EMBEDDING_DIM := 1536

  // What the embedding provider answers to batch k; None is an error.
  type Provider = (nat, seq<string>) -> Option<seq<Vector>>

  datatype Progress = Progress(filesDone: nat, filesTotal: nat, chunksDone: nat, currentFile: string)

  datatype Embeddings = Vectors(vectors: seq<Vector>) | ProviderFailed | DimensionMismatch

  // LengthMismatch is the ValueError of zip(strict=True), SplitRecursion the
  // RecursionError of the splitter, ProviderUnavailable the ProviderError of a
  // repository without chunks, and RowGone the foreign key's refusal; none of
  // them is an IndexError.
  datatype FillResult =
    | Filled(inserts: seq<ChunkInsert>)
    | TooManyChunks
    | EmbeddingFailed
    | EmbeddingDimensionMismatch
    | LengthMismatch
    | SplitRecursion
    | ProviderUnavailable
    | RowGone

  // ---- Batches ----

  function Upto(n: nat, k: nat): (end: nat)
    ensures end <= n
  {
    if (k + 1) * EMBED_BATCH_SIZE <= n then (k + 1) * EMBED_BATCH_SIZE else n
  }

  function Batch(cs: seq<ChunkSpec>, k: nat): seq<ChunkSpec>
    requires k * EMBED_BATCH_SIZE <= |cs|
  {
    cs[k * EMBED_BATCH_SIZE..Upto(|cs|, k)]
  }

  // All batches from number k on, put together.
  function BatchesFrom(cs: seq<ChunkSpec>, k: nat): seq<ChunkSpec>
    decreases |cs| - k * EMBED_BATCH_SIZE
  {
    if k * EMBED_BATCH_SIZE >= |cs| then [] else Batch(cs, k) + BatchesFrom(cs, k + 1)
  }

  // The batches are the chunks, in order and once each.
  lemma {:induction false} BatchesAreChunks(cs: seq<ChunkSpec>, k: nat)
    requires k * EMBED_BATCH_SIZE <= |cs|
    ensures BatchesFrom(cs, k) == cs[k * EMBED_BATCH_SIZE..]
    decreases |cs| - k * EMBED_BATCH_SIZE
  {
    if (k + 1) * EMBED_BATCH_SIZE <= |cs| {
      BatchesAreChunks(cs, k + 1);
    }
  }

  predicate RightSize(vs: seq<Vector>) {
    forall i | 0 <= i < |vs| :: |vs[i]| == EXPECTED_EMBEDDING_DIM
  }

  // The vectors of batch k and those after it.
  function EmbedFrom(provider: Provider, cs: seq<ChunkSpec>, k: nat): Embeddings
    decreases |cs| - k * EMBED_BATCH_SIZE
  {
    if k * EMBED_BATCH_SIZE >= |cs| then Vectors([])
    else
      match provider(k, Contents(Batch(cs, k)))
      case None => ProviderFailed
      case Some(vs) =>
        if !RightSize(vs) then DimensionMismatch
        else
          var rest := EmbedFrom(provider, cs, k + 1);
          if rest.Vectors? then Vectors(vs + rest.vectors) else rest
  }

  // The frame sent after batch k, and those sent for the first m batches.
  function FrameAfter(cs: seq<ChunkSpec>, filesTotal: nat, k: nat): Progress
    requires k * EMBED_BATCH_SIZE < |cs|
  {
    var done := Upto(|cs|, k);
    Progress(|Paths(cs[..done])|, filesTotal, done, cs[done - 1].filePath)
  }

  function FramesUpto(cs: seq<ChunkSpec>, filesTotal: nat, due: nat -> bool, m: nat): seq<Progress>
    requires m == 0 || (m - 1) * EMBED_BATCH_SIZE < |cs|
  {
    if m == 0 then []
    else FramesUpto(cs, filesTotal, due, m - 1) + if due(m - 1) then [FrameAfter(cs, filesTotal, m - 1)] else []
  }

  // `due(k)` says whether half a second has passed since the last frame.
  method EmbedInBatches(provider: Provider, cs: seq<ChunkSpec>, filesTotal: nat, due: nat -> bool)
    returns (result: Embeddings, frames: seq<Progress>, ghost batches: nat)
    ensures result == EmbedFrom(provider, cs, 0)
    ensures (batches == 0 || (batches - 1) * EMBED_BATCH_SIZE < |cs|)
              && frames == FramesUpto(cs, filesTotal, due, batches)
    ensures result.Vectors? ==> batches * EMBED_BATCH_SIZE >= |cs|
  {
    var embeddings: seq<Vector> := [];
    frames := [];
    var batchStart, k := 0, 0;
    batches := 0;
    while batchStart < |cs|
      invariant k == batches && batchStart == k * EMBED_BATCH_SIZE
      invariant k == 0 || (k - 1) * EMBED_BATCH_SIZE < |cs|
      invariant frames == FramesUpto(cs, filesTotal, due, k)
      invariant EmbedFrom(provider, cs, 0) == Prepended(embeddings, EmbedFrom(provider, cs, k))
      decreases |cs| - batchStart
    {
      var batch :=
        cs[batchStart..if batchStart + EMBED_BATCH_SIZE <= |cs| then batchStart + EMBED_BATCH_SIZE else |cs|];
      assert batch == Batch(cs, k);
      var answer := provider(k, Contents(batch));
      if answer.None? {
        return ProviderFailed, frames, batches;
      }
      var vectors := answer.value;
      if exists i | 0 <= i < |vectors| :: |vectors[i]| != EXPECTED_EMBEDDING_DIM {
        return DimensionMismatch, frames, batches;
      }
      PrependedTwice(embeddings, vectors, EmbedFrom(provider, cs, k + 1));
      embeddings := embeddings + vectors;
      if due(k) {
        var chunksDone := batchStart + |batch|;
        var filesDone := |Paths(cs[..chunksDone])|;
        frames := frames + [Progress(filesDone, filesTotal, chunksDone, batch[|batch| - 1].filePath)];
      }
      batchStart, k := batchStart + EMBED_BATCH_SIZE, k + 1;
      batches := k;
    }
    assert embeddings + [] == embeddings;
    result := Vectors(embeddings);
  }

  function Prepended(vs: seq<Vector>, e: Embeddings): Embeddings {
    if e.Vectors? then Vectors(vs + e.vectors) else e
  }

  lemma {:induction false} PrependedTwice(a: seq<Vector>, b: seq<Vector>, e: Embeddings)
    ensures Prepended(a, Prepended(b, e)) == Prepended(a + b, e)
  {
    if e.Vectors? {
      assert a + (b + e.vectors) == a + b + e.vectors;
    }
  }

  // ---- The whole pass ----

  function Pair(cs: seq<ChunkSpec>, counts: seq<nat>, vs: seq<Vector>): seq<ChunkInsert>
    requires |cs| == |counts| == |vs|
  {
    seq(|cs|, i requires 0 <= i < |cs| => ChunkInsert(cs[i], counts[i], vs[i]))
  }

  function Counts(tok: string -> nat, cs: seq<ChunkSpec>): seq<nat> {
    seq<nat>(|cs|, i requires 0 <= i < |cs| => tok(cs[i].content))
  }

  // What a pass comes to before it stores anything.  No provider: it could not
  // be created, which is an error even when there is nothing to embed.
  function Fill(tok: string -> nat, frames: nat, provider: Option<Provider>, chunks: seq<ChunkSpec>): FillResult {
    if |chunks| > MAX_CHUNKS_PER_REPO then TooManyChunks
    else if chunks == [] then if provider.None? then ProviderUnavailable else Filled([])
    else
      match CapAll(tok, chunks, frames)
      case RecursionLimit => SplitRecursion
      case Done(capped) =>
        if |capped| > MAX_CHUNKS_PER_REPO then TooManyChunks
        else if provider.None? then EmbeddingFailed
        else
          match EmbedFrom(provider.value, capped, 0)
          case ProviderFailed => EmbeddingFailed
          case DimensionMismatch => EmbeddingDimensionMismatch
          case Vectors(vs) => if |vs| != |capped| then LengthMismatch else Filled(Pair(capped, Counts(tok, capped), vs))
  }

  // A pass that comes to rows swaps them in, unless the repository is gone;
  // any other pass leaves the tables alone.
  function Stored(db: Db, id: nat, planned: FillResult, embedder: Embedder, now: int): Db {
    if planned.Filled? then Replaced(db, id, planned.inserts, embedder, now) else db
  }

  // Every chunk of the repository in the table is then one of the pass's rows.
  lemma {:induction false} RowInTable(db: Db, id: nat, planned: FillResult, embedder: Embedder, now: int, c: CodeChunk)
    returns (i: nat)
    requires Consistent(db) && id in db.repos && planned.Filled?
    requires c in Stored(db, id, planned, embedder, now).chunks && c.repoId == id
    ensures i < |planned.inserts| && c.insert == planned.inserts[i] && c.embedder == embedder
  {
    ReplacedExactly(db, id, planned.inserts, embedder, now);
    assert IsNewRow(c, db.nextChunk, id, planned.inserts, embedder);
    i := c.id - db.nextChunk;
  }

  // `frames` is the call depth the splitter may use; `sent` what was reported.
  method FillRepo(db: Database, id: nat, embedder: Embedder, now: int, tok: string -> nat, frames: nat,
                  provider: Option<Provider>, due: nat -> bool, chunks: seq<ChunkSpec>)
    returns (result: FillResult, sent: seq<Progress>, ghost batches: nat)
    requires Consistent(db.Tables())
    modifies db
    ensures
      var planned := Fill(tok, frames, provider, chunks);
      && db.Tables() == Stored(old(db.Tables()), id, planned, embedder, now)
      && result == if planned.Filled? && planned.inserts != [] && id !in old(db.repos) then RowGone else planned
    ensures
      var capped := CapAll(tok, chunks, frames);
      if capped.Done? then
        (batches == 0 || (batches - 1) * EMBED_BATCH_SIZE < |capped.pieces|)
            && sent == FramesUpto(capped.pieces, |Paths(chunks)|, due, batches)
      else sent == []
  {
    result, sent, batches := Collect(tok, frames, provider, due, chunks);
    if result.Filled? {
      var ok := db.ReplaceChunks(id, result.inserts, embedder, now);
      if !ok {
        result := RowGone;
      }
    }
  }

  method Collect(tok: string -> nat, frames: nat, provider: Option<Provider>, due: nat -> bool, chunks: seq<ChunkSpec>)
    returns (result: FillResult, sent: seq<Progress>, ghost batches: nat)
    ensures result == Fill(tok, frames, provider, chunks)
    ensures
      var capped := CapAll(tok, chunks, frames);
      if capped.Done? then
        (batches == 0 || (batches - 1) * EMBED_BATCH_SIZE < |capped.pieces|)
            && sent == FramesUpto(capped.pieces, |Paths(chunks)|, due, batches)
      else sent == []
  {
    var filesTotal := |Paths(chunks)|;
    sent, batches := [], 0;
    if |chunks| > MAX_CHUNKS_PER_REPO {
      return TooManyChunks, sent, batches;
    }
    if chunks == [] {
      return if provider.None? then ProviderUnavailable else Filled([]), sent, batches;
    }
    var capped, tokenCounts := EnforceChunkTokenCap(tok, chunks, frames);
    if capped.RecursionLimit? {
      return SplitRecursion, sent, batches;
    }
    if |capped.pieces| > MAX_CHUNKS_PER_REPO {
      return TooManyChunks, sent, batches;
    }
    if provider.None? {
      return EmbeddingFailed, sent, batches;
    }
    assert tokenCounts == Counts(tok, capped.pieces);
    var embeddings;
    embeddings, sent, batches := EmbedInBatches(provider.value, capped.pieces, filesTotal, due);
    match embeddings {
      case ProviderFailed => result := EmbeddingFailed;
      case DimensionMismatch => result := EmbeddingDimensionMismatch;
      case Vectors(vs) =>
        result := if |vs| != |capped.pieces| then LengthMismatch else Filled(Pair(capped.pieces, tokenCounts, vs));
    }
  }

  // ---- Which outcome when ----

  // The provider answers batch k, with vectors of the right size.
  ghost predicate GoodBatch(provider: Provider, cs: seq<ChunkSpec>, k: nat) {
    k * EMBED_BATCH_SIZE < |cs| && provider(k, Contents(Batch(cs, k))).Some?
    && forall v | v in provider(k, Contents(Batch(cs, k))).value :: |v| == 1536
  }

  // There are vectors if every batch from k on is good; otherwise the first
  // that is not says what went wrong.
  lemma {:induction false} EmbedOutcome(provider: Provider, cs: seq<ChunkSpec>, k: nat) returns (m: nat)
    requires k * EMBED_BATCH_SIZE <= |cs|
    ensures k <= m && forall j | k <= j < m :: GoodBatch(provider, cs, j)
    ensures EmbedFrom(provider, cs, k).Vectors? <==> m * EMBED_BATCH_SIZE >= |cs|
    ensures m * EMBED_BATCH_SIZE < |cs| ==> !GoodBatch(provider, cs, m)
    ensures EmbedFrom(provider, cs, k).ProviderFailed?
       <==> m * EMBED_BATCH_SIZE < |cs| && provider(m, Contents(Batch(cs, m))).None?
    decreases |cs| - k * EMBED_BATCH_SIZE
  {
    m := k;
    if k * EMBED_BATCH_SIZE < |cs| {
      var answer := provider(k, Contents(Batch(cs, k)));
      if answer.Some? && RightSize(answer.value) {
        assert GoodBatch(provider, cs, k);
        if (k + 1) * EMBED_BATCH_SIZE <= |cs| {
          m := EmbedOutcome(provider, cs, k + 1);
        } else {
          m := k + 1;
        }
      }
    }
  }

  // Every pass ends in the one way that its input calls for.
  lemma {:induction false} FillOutcome(tok: string -> nat, frames: nat, provider: Option<Provider>,
                                       chunks: seq<ChunkSpec>)
    ensures
      var result, capped := Fill(tok, frames, provider, chunks), CapAll(tok, chunks, frames);
      var some := 0 < |chunks| <= 5000;
      var fits := some && capped.Done? && |capped.pieces| <= 5000;
      && (result.TooManyChunks? <==> |chunks| > 5000 || (some && capped.Done? && |capped.pieces| > 5000))
      && (result.SplitRecursion? <==> some && capped.RecursionLimit?)
      && (result.ProviderUnavailable? <==> chunks == [] && provider.None?)
      && (result.EmbeddingFailed?
          <==> fits && (provider.None? || EmbedFrom(provider.value, capped.pieces, 0).ProviderFailed?))
      && (result.EmbeddingDimensionMismatch?
          <==> fits && provider.Some? && EmbedFrom(provider.value, capped.pieces, 0).DimensionMismatch?)
      && (result.LengthMismatch?
          <==> fits && provider.Some? && EmbedFrom(provider.value, capped.pieces, 0).Vectors?
               && |EmbedFrom(provider.value, capped.pieces, 0).vectors| != |capped.pieces|)
      && !result.RowGone?
  {
  }

  // ---- What is stored ----

  // A successful pass stores one row per capped chunk, in order, with its own
  // token count and a vector of the expected size, and never more than the cap.
  lemma {:induction false} FilledRows(tok: string -> nat, frames: nat, provider: Provider, chunks: seq<ChunkSpec>)
    requires Fill(tok, frames, Some(provider), chunks).Filled?
    ensures
      var inserts, capped := Fill(tok, frames, Some(provider), chunks).inserts, CapAll(tok, chunks, frames);
      && capped.Done? && |inserts| == |capped.pieces| && |chunks| <= |inserts| <= MAX_CHUNKS_PER_REPO
      && forall i | 0 <= i < |inserts| ::
           inserts[i].chunk == capped.pieces[i] && inserts[i].tokenCount == tok(capped.pieces[i].content)
           && EmbedFrom(provider, capped.pieces, 0).Vectors? && i < |EmbedFrom(provider, capped.pieces, 0).vectors|
           && inserts[i].embedding == EmbedFrom(provider, capped.pieces, 0).vectors[i]
           && |inserts[i].embedding| == EXPECTED_EMBEDDING_DIM
  {
    if chunks != [] {
      CapAllKeepsPaths(tok, chunks, frames);
      EmbedRightSize(provider, CapAll(tok, chunks, frames).pieces, 0);
    }
  }

  lemma {:induction false} EmbedRightSize(provider: Provider, cs: seq<ChunkSpec>, k: nat)
    requires EmbedFrom(provider, cs, k).Vectors?
    ensures RightSize(EmbedFrom(provider, cs, k).vectors)
    decreases |cs| - k * EMBED_BATCH_SIZE
  {
    if k * EMBED_BATCH_SIZE < |cs| {
      EmbedRightSize(provider, cs, k + 1);
    }
  }

  // The provider answers every batch with one vector per text.
  ghost predicate OnePerText(provider: Provider, cs: seq<ChunkSpec>) {
    forall k: nat | k * EMBED_BATCH_SIZE < |cs| ::
      var answer := provider(k, Contents(Batch(cs, k)));
      answer.Some? ==> |answer.value| == |Batch(cs, k)|
  }

  // Then chunk i gets the vector computed for its own text: number i % 100 of
  // the answer to batch i / 100.
  lemma {:induction false} VectorsAlign(provider: Provider, cs: seq<ChunkSpec>, k: nat, i: nat)
    requires OnePerText(provider, cs) && EmbedFrom(provider, cs, k).Vectors?
    requires k * EMBED_BATCH_SIZE <= i < |cs|
    ensures |EmbedFrom(provider, cs, k).vectors| == |cs| - k * EMBED_BATCH_SIZE
    ensures
      var b, j := i / EMBED_BATCH_SIZE, i % EMBED_BATCH_SIZE;
      b * EMBED_BATCH_SIZE < |cs| && j < |Batch(cs, b)| && Contents(Batch(cs, b))[j] == cs[i].content
      && var answer := provider(b, Contents(Batch(cs, b)));
         answer.Some? && j < |answer.value|
             && EmbedFrom(provider, cs, k).vectors[i - k * EMBED_BATCH_SIZE] == answer.value[j]
    decreases |cs| - k * EMBED_BATCH_SIZE
  {
    VectorsCount(provider, cs, k);
    if (k + 1) * EMBED_BATCH_SIZE <= i {
      VectorsAlign(provider, cs, k + 1, i);
    } else {
      assert i / EMBED_BATCH_SIZE == k;
    }
  }

  // So a pass stores each chunk with the vector computed for its own text.
  lemma {:induction false} RowsHaveOwnVectors(tok: string -> nat, frames: nat, provider: Provider,
                                              chunks: seq<ChunkSpec>, i: nat)
    requires Fill(tok, frames, Some(provider), chunks).Filled?
    requires OnePerText(provider, CapAll(tok, chunks, frames).pieces)
    requires i < |Fill(tok, frames, Some(provider), chunks).inserts|
    ensures
      var row, cs := Fill(tok, frames, Some(provider), chunks).inserts[i], CapAll(tok, chunks, frames).pieces;
      && (i / 100) * 100 < |cs| && i % 100 < |Batch(cs, i / 100)|
      && Contents(Batch(cs, i / 100))[i % 100] == row.chunk.content
      && var answer := provider(i / 100, Contents(Batch(cs, i / 100)));
         answer.Some? && i % 100 < |answer.value| && row.embedding == answer.value[i % 100]
  {
    FilledRows(tok, frames, provider, chunks);
    VectorsAlign(provider, CapAll(tok, chunks, frames).pieces, 0, i);
  }

  lemma {:induction false} VectorsCount(provider: Provider, cs: seq<ChunkSpec>, k: nat)
    requires OnePerText(provider, cs) && EmbedFrom(provider, cs, k).Vectors? && k * EMBED_BATCH_SIZE < |cs|
    ensures |EmbedFrom(provider, cs, k).vectors| == |cs| - k * EMBED_BATCH_SIZE
    ensures provider(k, Contents(Batch(cs, k))).Some?
    ensures |provider(k, Contents(Batch(cs, k))).value| == |Batch(cs, k)|
    decreases |cs| - k * EMBED_BATCH_SIZE
  {
    if (k + 1) * EMBED_BATCH_SIZE < |cs| {
      VectorsCount(provider, cs, k + 1);
    } else {
      assert EmbedFrom(provider, cs, k + 1) == Vectors([]);
    }
  }

  // How many vectors the answers before batch k hold.
  function VectorsBefore(provider: Provider, cs: seq<ChunkSpec>, k: nat): nat
    requires k == 0 || (k - 1) * EMBED_BATCH_SIZE <= |cs|
  {
    if k == 0 then 0
    else
      var answer := provider(k - 1, Contents(Batch(cs, k - 1)));
      VectorsBefore(provider, cs, k - 1) + if answer.Some? then |answer.value| else 0
  }

  lemma {:induction false} VectorsFrom(provider: Provider, cs: seq<ChunkSpec>, k: nat)
    requires k * EMBED_BATCH_SIZE <= |cs| && EmbedFrom(provider, cs, 0).Vectors?
    ensures EmbedFrom(provider, cs, k).Vectors?
    ensures |EmbedFrom(provider, cs, 0).vectors|
              == VectorsBefore(provider, cs, k) + |EmbedFrom(provider, cs, k).vectors|
  {
    if k > 0 {
      VectorsFrom(provider, cs, k - 1);
    }
  }

  // The vectors of each batch start where its chunks do.
  ghost predicate Aligned(provider: Provider, cs: seq<ChunkSpec>) {
    forall k: nat | k * EMBED_BATCH_SIZE < |cs| :: VectorsBefore(provider, cs, k) == k * EMBED_BATCH_SIZE
  }

  // When the total is right, that is so exactly if the provider answers every
  // batch with one vector per text.
  lemma {:induction false} AlignedIffOnePerText(provider: Provider, cs: seq<ChunkSpec>)
    requires EmbedFrom(provider, cs, 0).Vectors? && |EmbedFrom(provider, cs, 0).vectors| == |cs|
    ensures Aligned(provider, cs) <==> OnePerText(provider, cs)
  {
    if Aligned(provider, cs) {
      forall k: nat | k * EMBED_BATCH_SIZE < |cs|
        ensures
          var answer := provider(k, Contents(Batch(cs, k)));
          answer.Some? ==> |answer.value| == |Batch(cs, k)|
      {
        AlignedBatch(provider, cs, k);
      }
    }
    if OnePerText(provider, cs) {
      forall k: nat | k * EMBED_BATCH_SIZE < |cs| ensures VectorsBefore(provider, cs, k) == k * EMBED_BATCH_SIZE {
        OnePerTextBefore(provider, cs, k);
      }
    }
  }

  lemma {:induction false} AlignedBatch(provider: Provider, cs: seq<ChunkSpec>, k: nat)
    requires EmbedFrom(provider, cs, 0).Vectors? && |EmbedFrom(provider, cs, 0).vectors| == |cs|
    requires Aligned(provider, cs) && k * EMBED_BATCH_SIZE < |cs|
    ensures
      var answer := provider(k, Contents(Batch(cs, k)));
      answer.Some? ==> |answer.value| == |Batch(cs, k)|
  {
    VectorsFrom(provider, cs, k);
    assert VectorsBefore(provider, cs, k) == k * EMBED_BATCH_SIZE;
    if (k + 1) * EMBED_BATCH_SIZE < |cs| {
      assert VectorsBefore(provider, cs, k + 1) == (k + 1) * EMBED_BATCH_SIZE;
    } else {
      assert EmbedFrom(provider, cs, k + 1) == Vectors([]);
    }
  }

  lemma {:induction false} OnePerTextBefore(provider: Provider, cs: seq<ChunkSpec>, k: nat)
    requires EmbedFrom(provider, cs, 0).Vectors? && OnePerText(provider, cs) && k * EMBED_BATCH_SIZE < |cs|
    ensures VectorsBefore(provider, cs, k) == k * EMBED_BATCH_SIZE
  {
    if k > 0 {
      OnePerTextBefore(provider, cs, k - 1);
      VectorsFrom(provider, cs, k - 1);
      assert |Batch(cs, k - 1)| == EMBED_BATCH_SIZE;
    }
  }

  // Only the total is checked when chunks and vectors are paired: a provider
  // that answers one vector too few and then one too many goes unnoticed, and
  // the last chunk of the first batch gets a vector of the second batch.
  lemma {:induction false} MisalignedVectorsPass(tok: string -> nat, frames: nat, chunks: seq<ChunkSpec>, a: Vector,
                                                 b: Vector)
    requires |chunks| == 200 && |a| == |b| == EXPECTED_EMBEDDING_DIM
    requires CapAll(tok, chunks, frames) == Done(chunks)
    ensures
      var provider: Provider := (k: nat, texts: seq<string>) =>
        if k == 0 then Some(seq(99, i => a)) else Some(seq(101, i => b));
      var result := Fill(tok, frames, Some(provider), chunks);
      result.Filled? && result.inserts[99].embedding == b
  {
    var provider: Provider := (k: nat, texts: seq<string>) =>
      if k == 0 then Some(seq(99, i => a)) else Some(seq(101, i => b));
    var first, second := seq(99, i => a), seq(101, i => b);
    assert EmbedFrom(provider, chunks, 2) == Vectors([]);
    assert EmbedFrom(provider, chunks, 1) == Vectors(second + []);
    assert EmbedFrom(provider, chunks, 0) == Vectors(first + (second + []));
    assert (first + (second + []))[99] == b;
  }

  // ---- Progress ----

  lemma {:induction false} PathsGrow(cs: seq<ChunkSpec>, m: nat, n: nat)
    requires m <= n <= |cs|
    ensures Paths(cs[..m]) <= Paths(cs[..n]) && |Paths(cs[..m])| <= |Paths(cs[..n])|
  {
    assert cs[..n] == cs[..m] + cs[m..n];
    PathsConcat(cs[..m], cs[m..n]);
    assert Paths(cs[..n]) == Paths(cs[..m]) + (Paths(cs[..n]) - Paths(cs[..m]));
  }

  ghost predicate Rising(frames: seq<Progress>) {
    forall i, j | 0 <= i < j < |frames| ::
        frames[i].chunksDone < frames[j].chunksDone && frames[i].filesDone <= frames[j].filesDone
  }

  // Frame i is the one after some batch before m.
  ghost predicate AfterSome(cs: seq<ChunkSpec>, filesTotal: nat, f: Progress, m: nat) {
    exists k: nat :: k < m && k * EMBED_BATCH_SIZE < |cs| && f == FrameAfter(cs, filesTotal, k)
  }

  lemma {:induction false} FramesRise(cs: seq<ChunkSpec>, filesTotal: nat, due: nat -> bool, m: nat)
    requires m == 0 || (m - 1) * EMBED_BATCH_SIZE < |cs|
    ensures Rising(FramesUpto(cs, filesTotal, due, m))
    ensures forall f | f in FramesUpto(cs, filesTotal, due, m) :: AfterSome(cs, filesTotal, f, m)
  {
    if m > 0 {
      var before := FramesUpto(cs, filesTotal, due, m - 1);
      FramesRise(cs, filesTotal, due, m - 1);
      forall f | f in before ensures AfterSome(cs, filesTotal, f, m) {
        var k: nat :| k < m - 1 && k * EMBED_BATCH_SIZE < |cs| && f == FrameAfter(cs, filesTotal, k);
      }
      if due(m - 1) {
        var last := FrameAfter(cs, filesTotal, m - 1);
        assert AfterSome(cs, filesTotal, last, m);
        forall f | f in before ensures f.chunksDone < last.chunksDone && f.filesDone <= last.filesDone {
          var k: nat :| k < m - 1 && k * EMBED_BATCH_SIZE < |cs| && f == FrameAfter(cs, filesTotal, k);
          BatchOrder(|cs|, k, m - 1);
          PathsGrow(cs, Upto(|cs|, k), Upto(|cs|, m - 1));
        }
      }
    }
  }

  lemma {:induction false} BatchOrder(n: nat, k: nat, m: nat)
    requires k < m && m * EMBED_BATCH_SIZE < n
    ensures Upto(n, k) < Upto(n, m)
  {
    assert (k + 1) * EMBED_BATCH_SIZE <= m * EMBED_BATCH_SIZE;
  }

  // The frame after batch k: how many chunks it ends at, how many files those
  // touch, and the file of the last.
  ghost predicate TellsBatch(cs: seq<ChunkSpec>, filesTotal: nat, k: nat, f: Progress) {
    && k * 100 < |cs| && f.filesTotal == filesTotal
    && f.chunksDone == (if (k + 1) * 100 <= |cs| then (k + 1) * 100 else |cs|)
    && f.filesDone == |set i | 0 <= i < f.chunksDone :: cs[i].filePath|
    && f.currentFile == cs[f.chunksDone - 1].filePath
  }

  // The batches before m after which a frame is due.
  function DueBatches(due: nat -> bool, m: nat): seq<nat> {
    if m == 0 then [] else DueBatches(due, m - 1) + if due(m - 1) then [m - 1] else []
  }

  lemma {:induction false} DueExactly(due: nat -> bool, m: nat, k: nat)
    ensures k in DueBatches(due, m) <==> k < m && due(k)
  {
    if m > 0 {
      DueExactly(due, m - 1, k);
    }
  }

  lemma {:induction false} DueInOrder(due: nat -> bool, m: nat, i: nat, j: nat)
    requires i < j < |DueBatches(due, m)|
    ensures DueBatches(due, m)[i] < DueBatches(due, m)[j] < m
    decreases m
  {
    var before := DueBatches(due, m - 1);
    if j < |before| {
      DueInOrder(due, m - 1, i, j);
    } else {
      assert before[i] in before;
      DueExactly(due, m - 1, before[i]);
    }
  }

  // There is one frame per due batch, in their order, and no other.
  lemma {:induction false} FramesTell(cs: seq<ChunkSpec>, filesTotal: nat, due: nat -> bool, m: nat, i: nat)
    requires m == 0 || (m - 1) * EMBED_BATCH_SIZE < |cs|
    ensures |FramesUpto(cs, filesTotal, due, m)| == |DueBatches(due, m)|
    ensures i < |DueBatches(due, m)| ==>
              TellsBatch(cs, filesTotal, DueBatches(due, m)[i], FramesUpto(cs, filesTotal, due, m)[i])
    decreases m
  {
    if m > 0 {
      FramesTell(cs, filesTotal, due, m - 1, i);
      FrameTells(cs, filesTotal, m - 1);
    }
  }

  lemma {:induction false} FrameTells(cs: seq<ChunkSpec>, filesTotal: nat, k: nat)
    requires k * EMBED_BATCH_SIZE < |cs|
    ensures TellsBatch(cs, filesTotal, k, FrameAfter(cs, filesTotal, k))
  {
    var done := Upto(|cs|, k);
    assert Paths(cs[..done]) == set i | 0 <= i < done :: cs[i].filePath;
  }

  // The progress of a pass: chunks rise, files never fall, files_done never
  // exceeds the files_total counted before capping, and when the last chunk is
  // done so are exactly all files.
  lemma {:induction false} ProgressIsSound(tok: string -> nat, frames: nat, chunks: seq<ChunkSpec>, due: nat -> bool,
                                           m: nat)
    requires CapAll(tok, chunks, frames).Done?
    requires m == 0 || (m - 1) * EMBED_BATCH_SIZE < |CapAll(tok, chunks, frames).pieces|
    ensures
      var capped, total := CapAll(tok, chunks, frames).pieces, |Paths(chunks)|;
      var sent := FramesUpto(capped, total, due, m);
      Rising(sent)
      && forall f | f in sent ::
           f.filesTotal == total && f.filesDone <= total && f.chunksDone <= |capped|
               && (f.chunksDone == |capped| ==> f.filesDone == total)
  {
    var capped, total := CapAll(tok, chunks, frames).pieces, |Paths(chunks)|;
    FramesRise(capped, total, due, m);
    CapAllKeepsPaths(tok, chunks, frames);
    assert capped[..|capped|] == capped;
    forall f | f in FramesUpto(capped, total, due, m)
      ensures f.filesTotal == total && f.filesDone <= total && f.chunksDone <= |capped|
                && (f.chunksDone == |capped| ==> f.filesDone == total)
    {
      assert AfterSome(capped, total, f, m);
      PathsGrow(capped, f.chunksDone, |capped|);
    }
  }
}
