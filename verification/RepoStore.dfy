// The two tables of the index: repositories and their code chunks.

module RepoStore {
  import opened Chunks

  // Which provider and model computed an embedding.
  datatype Embedder = Embedder(provider: string, model: string)

  // A row of `repositories`.
  datatype Repo = Repo(source: string, indexedAt: Option<int>, chunkCount: nat,
                       provider: Option<string>, model: Option<string>, lastError: Option<string>)

  type Vector = seq<real>

  // What is inserted for a chunk.
  datatype ChunkInsert = ChunkInsert(chunk: ChunkSpec, tokenCount: nat, embedding: Vector)

  // A row of `code_chunks`; the embedder is what computed its vector.
  datatype CodeChunk = CodeChunk(id: nat, repoId: nat, insert: ChunkInsert, embedder: Embedder)

  // Both tables, and the ids not handed out yet.
  datatype Db = Db(repos: map<nat, Repo>, chunks: set<CodeChunk>, nextRepo: nat, nextChunk: nat)

  // Neither indexed nor failed: a pass is due or under way.
  predicate Pending(r: Repo) {
    r.indexedAt.None? && r.lastError.None?
  }

  // UNIQUE(source), the foreign key, and fresh ids.
  ghost predicate Consistent(db: Db) {
    && (forall i, j | i in db.repos && j in db.repos && db.repos[i].source == db.repos[j].source :: i == j)
    && (forall c | c in db.chunks :: c.repoId in db.repos && c.id < db.nextChunk)
    && (forall i | i in db.repos :: i < db.nextRepo)
  }

  ghost predicate IsSource(db: Db, id: nat, source: string) {
    id in db.repos && db.repos[id].source == source
  }

  ghost predicate HasSource(db: Db, source: string) {
    exists id :: IsSource(db, id, source)
  }

  function ChunksOf(db: Db, id: nat): set<CodeChunk> {
    set c | c in db.chunks && c.repoId == id
  }

  // Rows for the inserts, with ids from firstId on.
  function NewRows(firstId: nat, id: nat, inserts: seq<ChunkInsert>, embedder: Embedder): set<CodeChunk> {
    set i | 0 <= i < |inserts| :: CodeChunk(firstId + i, id, inserts[i], embedder)
  }

  lemma {:induction false} NewRowsSize(firstId: nat, id: nat, inserts: seq<ChunkInsert>, embedder: Embedder)
    ensures |NewRows(firstId, id, inserts, embedder)| == |inserts|
  {
    if inserts != [] {
      var n := |inserts| - 1;
      var rest := inserts[..n];
      NewRowsSize(firstId, id, rest, embedder);
      NewRowsSnoc(firstId, id, rest, inserts[n], embedder);
      assert inserts == rest + [inserts[n]];
      assert CodeChunk(firstId + n, id, inserts[n], embedder) !in NewRows(firstId, id, rest, embedder);
    }
  }

  lemma {:induction false} NewRowsSnoc(firstId: nat, id: nat, inserts: seq<ChunkInsert>, insert: ChunkInsert,
                                       embedder: Embedder)
    ensures NewRows(firstId, id, inserts + [insert], embedder)
         == NewRows(firstId, id, inserts, embedder) + {CodeChunk(firstId + |inserts|, id, insert, embedder)}
  {
    var more := inserts + [insert];
    forall c | c in NewRows(firstId, id, inserts, embedder) + {CodeChunk(firstId + |inserts|, id, insert, embedder)}
      ensures c in NewRows(firstId, id, more, embedder)
    {
      if c == CodeChunk(firstId + |inserts|, id, insert, embedder) {
        assert more[|inserts|] == insert;
      } else {
        var i :| 0 <= i < |inserts| && c == CodeChunk(firstId + i, id, inserts[i], embedder);
        assert more[i] == inserts[i];
      }
    }
  }

  // ---- What each transaction does ----

  function FreshRepo(source: string): Repo {
    Repo(source, None, 0, None, None, None)
  }

  function RepoInserted(db: Db, source: string): Db {
    db.(repos := db.repos[db.nextRepo := FreshRepo(source)], nextRepo := db.nextRepo + 1)
  }

  // DELETE on the repository; the foreign key cascades to its chunks.
  function Deleted(db: Db, id: nat): Db {
    db.(repos := db.repos - {id}, chunks := set c | c in db.chunks && c.repoId != id)
  }

  function FailureWritten(db: Db, id: nat, message: string): Db {
    if id in db.repos then db.(repos := db.repos[id := db.repos[id].(lastError := Some(message))]) else db
  }

  // The swap: the repository's chunks are the new ones only, and its row says
  // so.  Chunks of a repository that is gone cannot be inserted.
  function Replaced(db: Db, id: nat, inserts: seq<ChunkInsert>, embedder: Embedder, now: int): Db {
    if id !in db.repos then db
    else
      Db(db.repos[id := db.repos[id].(indexedAt := Some(now), chunkCount := |inserts|,
                                       provider := Some(embedder.provider), model := Some(embedder.model),
                                       lastError := None)],
         (set c | c in db.chunks && c.repoId != id) + NewRows(db.nextChunk, id, inserts, embedder),
         db.nextRepo, db.nextChunk + |inserts|)
  }

  class Database {
    var repos: map<nat, Repo>
    var chunks: set<CodeChunk>
    var nextRepo: nat
    var nextChunk: nat

    function Tables(): Db
      reads this
    {
      Db(repos, chunks, nextRepo, nextChunk)
    }

    constructor ()
      ensures Tables() == Db(map[], {}, 0, 0)
    {
      repos, chunks, nextRepo, nextChunk := map[], {}, 0, 0;
    }

    // INSERT ... ON CONFLICT (source) DO NOTHING, then SELECT if that did nothing.
    method UpsertRepo(source: string) returns (id: nat, created: bool)
      requires Consistent(Tables())
      modifies this
      ensures created <==> !old(HasSource(Tables(), source))
      ensures created ==> id == old(nextRepo) && Tables() == RepoInserted(old(Tables()), source)
      ensures !created ==> Tables() == old(Tables())
      ensures IsSource(Tables(), id, source) && Consistent(Tables())
    {
      var todo := repos.Keys;
      while todo != {}
        invariant todo <= repos.Keys
        invariant forall i | i in repos && i !in todo :: repos[i].source != source
        decreases todo
      {
        var i :| i in todo;
        if repos[i].source == source {
          assert IsSource(Tables(), i, source);
          return i, false;
        }
        todo := todo - {i};
      }
      id, created := nextRepo, true;
      repos := repos[id := FreshRepo(source)];
      nextRepo := nextRepo + 1;
    }

    method FetchRepo(id: nat) returns (row: Option<Repo>)
      ensures row == if id in repos then Some(repos[id]) else None
    {
      row := if id in repos then Some(repos[id]) else None;
    }

    method DeleteRepoById(id: nat) returns (removed: bool)
      modifies this
      ensures Tables() == Deleted(old(Tables()), id)
      ensures removed <==> id in old(repos)
    {
      removed := id in repos;
      repos := repos - {id};
      chunks := set c | c in chunks && c.repoId != id;
    }

    method WriteRepoFailure(id: nat, message: string)
      modifies this
      ensures Tables() == FailureWritten(old(Tables()), id, message)
    {
      if id in repos {
        repos := repos[id := repos[id].(lastError := Some(message))];
      }
    }

    // Insert the new rows, delete the repository's other rows, update the row.
    // `ok` is false when the foreign key refuses the insertion, which undoes
    // the whole transaction.
    method ReplaceChunks(id: nat, inserts: seq<ChunkInsert>, embedder: Embedder, now: int) returns (ok: bool)
      requires Consistent(Tables())
      modifies this
      ensures Tables() == Replaced(old(Tables()), id, inserts, embedder, now)
      ensures ok <==> id in old(repos) || inserts == []
    {
      if id !in repos && inserts != [] {
        return false;
      }
      ghost var before := chunks;
      var newIds: set<nat> := {};
      var first := nextChunk;
      for i := 0 to |inserts|
        invariant chunks == before + NewRows(first, id, inserts[..i], embedder)
        invariant nextChunk == first + i && nextRepo == old(nextRepo) && repos == old(repos)
        invariant forall k: nat :: k in newIds <==> first <= k < nextChunk
      {
        assert inserts[..i + 1] == inserts[..i] + [inserts[i]];
        NewRowsSnoc(first, id, inserts[..i], inserts[i], embedder);
        chunks := chunks + {CodeChunk(nextChunk, id, inserts[i], embedder)};
        newIds := newIds + {nextChunk};
        nextChunk := nextChunk + 1;
      }
      assert inserts[..|inserts|] == inserts;
      DeleteComplement(id, newIds, first, inserts, embedder, before);
      if id in repos {
        repos := repos[id := repos[id].(indexedAt := Some(now), chunkCount := |inserts|,
                                        provider := Some(embedder.provider), model := Some(embedder.model),
                                        lastError := None)];
      }
      ok := true;
    }

    // DELETE WHERE repo_id = :id AND id NOT IN new ids.
    method DeleteComplement(id: nat, newIds: set<nat>, ghost first: nat, ghost inserts: seq<ChunkInsert>,
                            ghost embedder: Embedder, ghost before: set<CodeChunk>)
      requires chunks == before + NewRows(first, id, inserts, embedder)
      requires forall k: nat :: k in newIds <==> first <= k < first + |inserts|
      requires forall c | c in before :: c.id < first
      modifies this`chunks
      ensures chunks == (set c | c in before && c.repoId != id) + NewRows(first, id, inserts, embedder)
    {
      chunks := set c | c in chunks && !(c.repoId == id && c.id !in newIds);
    }
  }

  // ---- What each transaction changes, row by row ----

  ghost predicate OtherRowsSame(db: Db, after: Db, id: nat) {
    forall j | j != id :: (j in after.repos <==> j in db.repos) && (j in db.repos ==> after.repos[j] == db.repos[j])
  }

  // A new row for the source, pending, with no chunks; nothing else changes.
  lemma {:induction false} InsertedExactly(db: Db, source: string)
    requires Consistent(db)
    ensures
      var id, after := db.nextRepo, RepoInserted(db, source);
      && id !in db.repos && id in after.repos
      && after.repos[id].source == source && after.repos[id].indexedAt.None? && after.repos[id].lastError.None?
      && after.repos[id].chunkCount == 0 && after.repos[id].provider.None? && after.repos[id].model.None?
      && OtherRowsSame(db, after, id)
      && after.chunks == db.chunks && (forall c | c in after.chunks :: c.repoId != id)
      && id < after.nextRepo && after.nextChunk == db.nextChunk
  {
  }

  // The row goes with exactly its chunks.
  lemma {:induction false} DeletedExactly(db: Db, id: nat)
    ensures
      var after := Deleted(db, id);
      && id !in after.repos
      && OtherRowsSame(db, after, id)
      && (forall c :: c in after.chunks <==> c in db.chunks && c.repoId != id)
      && after.nextRepo == db.nextRepo && after.nextChunk == db.nextChunk
  {
  }

  // last_error is set, and nothing else changes.
  lemma {:induction false} FailureExactly(db: Db, id: nat, message: string)
    ensures
      var after := FailureWritten(db, id, message);
      && after.repos.Keys == db.repos.Keys && after.chunks == db.chunks
      && after.nextRepo == db.nextRepo && after.nextChunk == db.nextChunk
      && OtherRowsSame(db, after, id)
      && (id in db.repos ==>
            var old', new' := db.repos[id], after.repos[id];
            && new'.lastError == Some(message) && new'.source == old'.source && new'.indexedAt == old'.indexedAt
            && new'.chunkCount == old'.chunkCount && new'.provider == old'.provider && new'.model == old'.model)
  {
  }

  // Row j of the new chunks: the j-th insert, under a fresh id.
  ghost predicate IsNewRow(c: CodeChunk, first: nat, id: nat, inserts: seq<ChunkInsert>, embedder: Embedder) {
    && c.repoId == id && c.embedder == embedder && first <= c.id < first + |inserts|
    && c.insert == inserts[c.id - first]
  }

  // The repository's chunks are one per insert, in order and under fresh ids;
  // its row names their number, embedder and time, and no error; all else stays.
  lemma {:induction false} ReplacedExactly(db: Db, id: nat, inserts: seq<ChunkInsert>, embedder: Embedder, now: int)
    requires Consistent(db) && id in db.repos
    ensures
      var after := Replaced(db, id, inserts, embedder, now);
      && (forall c: CodeChunk | c.repoId == id ::
            c in after.chunks <==> IsNewRow(c, db.nextChunk, id, inserts, embedder))
      && (forall c: CodeChunk | c.repoId != id :: c in after.chunks <==> c in db.chunks)
      && (forall c | c in db.chunks :: c.id < db.nextChunk) && after.nextChunk == db.nextChunk + |inserts|
      && id in after.repos && OtherRowsSame(db, after, id) && after.nextRepo == db.nextRepo
      && (var row := after.repos[id];
          && row.source == db.repos[id].source && row.indexedAt == Some(now) && row.chunkCount == |inserts|
          && row.provider == Some(embedder.provider) && row.model == Some(embedder.model) && row.lastError.None?)
  {
    var after := Replaced(db, id, inserts, embedder, now);
    forall c: CodeChunk | c.repoId == id
      ensures c in after.chunks <==> IsNewRow(c, db.nextChunk, id, inserts, embedder)
    {
      if IsNewRow(c, db.nextChunk, id, inserts, embedder) {
        var i := c.id - db.nextChunk;
        assert c == CodeChunk(db.nextChunk + i, id, inserts[i], embedder);
      }
    }
  }

  // ---- What stays as it was ----

  lemma {:induction false} DeletedConsistent(db: Db, id: nat)
    requires Consistent(db)
    ensures Consistent(Deleted(db, id)) && ChunksOf(Deleted(db, id), id) == {}
    ensures forall j | j != id :: ChunksOf(Deleted(db, id), j) == ChunksOf(db, j)
  {
    forall j | j != id ensures ChunksOf(Deleted(db, id), j) == ChunksOf(db, j) {
    }
  }

  lemma {:induction false} ReplacedConsistent(db: Db, id: nat, inserts: seq<ChunkInsert>, embedder: Embedder, now: int)
    requires Consistent(db) && id in db.repos
    ensures Consistent(Replaced(db, id, inserts, embedder, now))
    ensures ChunksOf(Replaced(db, id, inserts, embedder, now), id) == NewRows(db.nextChunk, id, inserts, embedder)
    ensures forall j | j != id :: ChunksOf(Replaced(db, id, inserts, embedder, now), j) == ChunksOf(db, j)
  {
    var after := Replaced(db, id, inserts, embedder, now);
    forall j | j != id ensures ChunksOf(after, j) == ChunksOf(db, j) {
    }
    forall c | c in after.chunks ensures c.repoId in after.repos && c.id < after.nextChunk {
    }
  }
}
