// What a search reads that passed the gate before it: chunks of the last pass,
// but not always embedded as its queries are.

module SearchTheorems {
  import opened Chunks
  import opened RepoStore
  import opened Lifecycle
  import opened LifecycleTheorems

  // What a search past the gate reads: chunks of the last successful pass, if
  // the repository is still there; and while the settings have stayed as they
  // were at the gate, embedded just as its queries are.
  lemma {:induction false} SearchReadsLastPass(active: Embedder, events: seq<Event>, q: nat, c: CodeChunk)
    requires Named(active)
    requires q in Run(active, events).searches
              && c in ChunksOf(Run(active, events).db, Run(active, events).searches[q].repo)
    ensures
      var s := Run(active, events);
      var id := s.searches[q].repo;
      id in s.passes && c in NewRows(s.passes[id].firstId, id, s.passes[id].inserts, s.passes[id].embedder)
      && (s.searches[q].steady ==> c.embedder == s.searches[q].embedder)
  {
    var s := Run(active, events);
    RunKeeps(active, events);
    assert RowOk(s.db, s.passes, s.searches[q].repo);
  }

  // A search is admitted exactly for an indexed repository whose last pass used
  // the embedder of the settings; it remembers that embedder.
  lemma {:induction false} AdmittedIff(s: State, id: nat)
    requires Inv(s)
    ensures
      var admitted := id in s.db.repos && s.db.repos[id].indexedAt.Some? && id in s.passes
                      && s.passes[id].embedder == s.active;
      var s' := Next(s, SearchStart(id));
      if admitted then
        s'.searches == s.searches[s.nextSearch := Search(id, s.active, true)] && s.nextSearch !in s.searches
      else s' == s
  {
    if id in s.db.repos {
      assert RowOk(s.db, s.passes, id);
    }
  }

  // ---- When the chunks are embedded as the queries are ----

  // The job of the last of these events that commits for repository id.
  ghost function LastCommit(s: State, more: seq<Event>, id: nat): (job: Option<Task>)
    ensures job.Some? ==> job.value.Filling?
    decreases |more|
  {
    if more == [] then None
    else
      var later := LastCommit(Next(s, more[0]), more[1..], id);
      if later.Some? then later
      else if Commits(s, more[0], id) then Some(s.tasks[more[0].task])
      else None
  }

  // An id that was handed out and whose row is gone never comes back.
  lemma {:induction false} GoneStaysGone(s: State, more: seq<Event>, id: nat)
    requires Inv(s) && id < s.db.nextRepo && id !in s.db.repos
    ensures id !in After(s, more).db.repos
    decreases |more|
  {
    if more != [] {
      NextKeeps(s, more[0]);
      StaysGone(s, more[0], id);
      GoneStaysGone(Next(s, more[0]), more[1..], id);
    }
  }

  lemma {:induction false} StaysGone(s: State, e: Event, id: nat)
    requires Inv(s) && id < s.db.nextRepo && id !in s.db.repos
    ensures id < Next(s, e).db.nextRepo && id !in Next(s, e).db.repos
  {
    IdsGrow(s, e);
    if OfTask(e) && e.task in s.tasks {
      RowsKept(s, e, e.task, id);
    }
  }

  lemma {:induction false} IdsGrow(s: State, e: Event)
    ensures s.db.nextRepo <= Next(s, e).db.nextRepo
  {
  }

  // While the row is there, its last pass is the one the last commit made, or
  // the one it had.
  lemma {:induction false} LastPassAfter(s: State, more: seq<Event>, id: nat)
    requires Inv(s) && id in s.db.repos && id in After(s, more).db.repos
    ensures
      var last, s' := LastCommit(s, more, id), After(s, more);
      && Inv(s')
      && (last.Some? ==> id in s'.passes && s'.passes[id].inserts == last.value.inserts
                         && s'.passes[id].embedder == last.value.embedder)
      && (last.None? ==> (id in s'.passes <==> id in s.passes) && (id in s.passes ==> s'.passes[id] == s.passes[id]))
    decreases |more|
  {
    if more != [] {
      var s1 := Next(s, more[0]);
      NextKeeps(s, more[0]);
      if id !in s1.db.repos {
        IdsGrow(s, more[0]);
        GoneStaysGone(s1, more[1..], id);
      }
      OnlyCommitsChangeChunks(s, more[0], id);
      LastPassAfter(s1, more[1..], id);
    }
  }

  // A search passes the gate of repository id, anything happens, and the search
  // reads: what it reads is embedded as its queries are exactly if the row is
  // gone, nothing was committed for it meanwhile, or the last commit had no
  // chunks or the same embedder.  Otherwise no chunk is.
  lemma {:induction false} SearchReadsAlikeIff(s: State, more: seq<Event>, id: nat)
    requires Inv(s) && id in s.db.repos && Gate(s.db.repos[id], s.active)
    ensures
      var q, s1 := s.nextSearch, Next(s, SearchStart(id));
      var last, rows := LastCommit(s1, more, id), ChunksOf(After(s1, more).db, id);
      && q in s1.searches && s1.searches[q] == Search(id, s.active, true)
      && ((forall c | c in rows :: c.embedder == s.active)
          <==> id !in After(s1, more).db.repos || last.None? || last.value.inserts == []
               || last.value.embedder == s.active)
      && ((exists c :: c in rows && c.embedder != s.active) ==> forall c | c in rows :: c.embedder != s.active)
  {
    var s1 := Next(s, SearchStart(id));
    NextKeeps(s, SearchStart(id));
    var s2 := After(s1, more);
    AfterKeeps(s1, more);
    if id in s2.db.repos {
      LastPassAfter(s1, more, id);
      assert RowOk(s.db, s.passes, id) && RowOk(s2.db, s2.passes, id);
      var pass := s2.passes[id];
      if pass.inserts != [] {
        assert CodeChunk(pass.firstId + 0, id, pass.inserts[0], pass.embedder) in ChunksOf(s2.db, id);
      }
    } else {
      assert ChunksOf(s2.db, id) == {};
    }
  }

  lemma {:induction false} AfterKeeps(s: State, more: seq<Event>)
    requires Inv(s)
    ensures Inv(After(s, more))
    decreases |more|
  {
    if more != [] {
      NextKeeps(s, more[0]);
      AfterKeeps(Next(s, more[0]), more[1..]);
    }
  }

  // ---- A search that is overtaken ----

  lemma {:induction false} RegisterReady(s: State, id: nat)
    requires Inv(s) && id in s.db.repos && s.db.repos[id].indexedAt.Some?
    ensures
      var s' := Next(s, Register(s.db.repos[id].source));
      s'.tasks == s.tasks[s.nextTask := Dispatching(id)] && s'.searches == s.searches && s'.active == s.active
      && s'.db.repos == s.db.repos[id := s.db.repos[id].(indexedAt := None, lastError := None, chunkCount := 0)]
  {
    var source := s.db.repos[id].source;
    assert IsSource(s.db, id, source) && IsSource(s.db, IdOf(s.db, source), source);
  }

  // Without steady settings it can go wrong, in every state: let the settings
  // change and the repository be indexed again between the gate and the read.
  lemma {:induction false} OvertakenSearch(s: State, q: nat, insert: ChunkInsert, embedder: Embedder, now: int)
    requires Inv(s) && q in s.searches && Named(embedder) && embedder != s.searches[q].embedder
    requires s.searches[q].repo in s.db.repos && s.db.repos[s.searches[q].repo].indexedAt.Some?
    ensures
      var id, t := s.searches[q].repo, s.nextTask;
      var s1 := Next(s, ChangeSettings(embedder));
      var s2 := Next(s1, Register(s.db.repos[id].source));
      var s3 := Next(s2, Enqueued(t));
      var s4 := Next(s3, Started(t));
      var s5 := Next(s4, Embedded(t, [insert]));
      var s6 := Next(s5, Committed(t, now));
      q in s6.searches && ChunksOf(s6.db, id) != {}
      && forall c | c in ChunksOf(s6.db, id) :: c.embedder != s6.searches[q].embedder
  {
    var id, t := s.searches[q].repo, s.nextTask;
    var s1 := Next(s, ChangeSettings(embedder));
    NextKeeps(s, ChangeSettings(embedder));
    RegisterReady(s1, id);
    var s2 := Next(s1, Register(s.db.repos[id].source));
    NextKeeps(s1, Register(s.db.repos[id].source));
    assert s2.tasks[t] == Dispatching(id) && s2.active == embedder && q in s2.searches && s2.searches[q].repo == id;
    IndexedAgain(s2, t, q, insert, now);
  }

  // From a dispatching task to a job about to commit.
  lemma {:induction false} ToFilling(s: State, t: nat, inserts: seq<ChunkInsert>)
    requires t in s.tasks && s.tasks[t].Dispatching? && s.tasks[t].repo in s.db.repos
    ensures Next(Next(Next(s, Enqueued(t)), Started(t)), Embedded(t, inserts))
              == WithTask(s, t, Filling(s.tasks[t].repo, inserts, s.active))
  {
    var id := s.tasks[t].repo;
    var s1, s2 := WithTask(s, t, Queued(id)), WithTask(s, t, Running(id));
    assert Next(s, Enqueued(t)) == s1;
    assert Next(s1, Started(t)) == s2;
    assert Next(s2, Embedded(t, inserts)) == WithTask(s, t, Filling(id, inserts, s.active));
  }

  lemma {:induction false} IndexedAgain(s: State, t: nat, q: nat, insert: ChunkInsert, now: int)
    requires Inv(s) && t in s.tasks && s.tasks[t].Dispatching? && q in s.searches
    ensures
      var id := s.tasks[t].repo;
      var s' := Next(Next(Next(Next(s, Enqueued(t)), Started(t)), Embedded(t, [insert])), Committed(t, now));
      s'.searches == s.searches && ChunksOf(s'.db, id) != {}
      && forall c | c in ChunksOf(s'.db, id) :: c.embedder == s.active
  {
    var id := s.tasks[t].repo;
    ToFilling(s, t, [insert]);
    CommitsRows(WithTask(s, t, Filling(id, [insert], s.active)), t, insert, now);
  }

  lemma {:induction false} CommitsRows(s: State, t: nat, insert: ChunkInsert, now: int)
    requires Consistent(s.db) && t in s.tasks && s.tasks[t].Filling? && s.tasks[t].inserts == [insert]
              && s.tasks[t].repo in s.db.repos
    ensures
      var task, s' := s.tasks[t], Next(s, Committed(t, now));
      s'.searches == s.searches && ChunksOf(s'.db, task.repo) != {}
      && forall c | c in ChunksOf(s'.db, task.repo) :: c.embedder == task.embedder
  {
    var task := s.tasks[t];
    ReplacedConsistent(s.db, task.repo, [insert], task.embedder, now);
    var first := s.db.nextChunk;
    assert CodeChunk(first + 0, task.repo, [insert][0], task.embedder)
        in NewRows(first, task.repo, [insert], task.embedder);
  }

  // A run that gets there: register, index, search.
  function FirstPass(source: string, insert: ChunkInsert): seq<Event> {
    [Register(source)] + [Enqueued(0)] + [Started(0)] + [Embedded(0, [insert])]
  }

  function FirstSearch(source: string, insert: ChunkInsert, now: int): seq<Event> {
    FirstPass(source, insert) + [Committed(0, now)] + [SearchStart(0)]
  }

  lemma {:induction false} FirstFilled(active: Embedder, source: string, insert: ChunkInsert)
    ensures
      var dispatching := WithDispatch(Init(active), RepoInserted(Init(active).db, source), 0);
      Run(active, FirstPass(source, insert)) == WithTask(dispatching, 0, Filling(0, [insert], active))
  {
    var e1, e2 := [Register(source)], [Register(source)] + [Enqueued(0)];
    FirstRegistered(active, source);
    RunSnoc(active, e1, Enqueued(0));
    RunSnoc(active, e2, Started(0));
    RunSnoc(active, e2 + [Started(0)], Embedded(0, [insert]));
    ToFilling(Run(active, e1), 0, [insert]);
  }

  lemma {:induction false} SearchUnderWay(active: Embedder, source: string, insert: ChunkInsert, now: int)
    requires Named(active)
    ensures
      var s := Run(active, FirstSearch(source, insert, now));
      && Inv(s) && 0 in s.searches && s.searches[0] == Search(0, active, true)
      && 0 in s.db.repos && s.db.repos[0].indexedAt.Some? && ChunksOf(s.db, 0) != {}
  {
    var pass := FirstPass(source, insert);
    RunKeeps(active, FirstSearch(source, insert, now));
    FirstFilled(active, source, insert);
    RunSnoc(active, pass, Committed(0, now));
    RunSnoc(active, pass + [Committed(0, now)], SearchStart(0));
    CommitsRows(Run(active, pass), 0, insert, now);
  }
}
