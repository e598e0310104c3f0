// What holds in every run of the indexing lifecycle.

module LifecycleTheorems {
  import opened Chunks
  import opened RepoStore
  import opened Lifecycle

  // ---- A ready repository's chunks ----

  // In every reachable state the chunks of a ready repository are exactly those
  // of its last successful pass, counted by chunk_count, and all embedded by
  // the provider and model its row names.
  lemma {:induction false} ReadyMeansLastPass(active: Embedder, events: seq<Event>, id: nat)
    requires Named(active)
    ensures
      var s := Run(active, events);
      id in s.db.repos && s.db.repos[id].indexedAt.Some? ==>
        var r, rows := s.db.repos[id], ChunksOf(s.db, id);
        id in s.passes
        && rows == NewRows(s.passes[id].firstId, id, s.passes[id].inserts, s.passes[id].embedder)
        && r.chunkCount == |rows|
        && forall c | c in rows :: r.provider == Some(c.embedder.provider) && r.model == Some(c.embedder.model)
  {
    RunKeeps(active, events);
    var s := Run(active, events);
    if id in s.db.repos && s.db.repos[id].indexedAt.Some? {
      assert RowOk(s.db, s.passes, id);
      NewRowsSize(s.passes[id].firstId, id, s.passes[id].inserts, s.passes[id].embedder);
    }
  }

  // Task t is a job about to commit for repository id.
  predicate Commits(s: State, e: Event, id: nat) {
    e.Committed? && e.task in s.tasks && s.tasks[e.task].Filling? && s.tasks[e.task].repo == id
  }

  // Across event e, from s to s': the chunks and the last pass of id are as
  // they were, or id is gone with them, or e committed new ones.
  ghost predicate ChunksFollow(s: State, e: Event, s': State, id: nat) {
    if id !in s'.db.repos then ChunksOf(s'.db, id) == {} && id !in s'.passes
    else if Commits(s, e, id) then
      var t := s.tasks[e.task];
      id in s'.passes && s'.passes[id].inserts == t.inserts && s'.passes[id].embedder == t.embedder
      && ChunksOf(s'.db, id) == NewRows(s.db.nextChunk, id, t.inserts, t.embedder)
    else
      && ChunksOf(s'.db, id) == ChunksOf(s.db, id)
      && (id in s'.passes <==> id in s.passes) && (id in s.passes ==> s'.passes[id] == s.passes[id])
  }

  lemma {:induction false} UntouchedFollows(s: State, e: Event, s': State, id: nat)
    requires !e.Committed? && id in s'.db.repos && s'.db.chunks == s.db.chunks && s'.passes == s.passes
    ensures ChunksFollow(s, e, s', id)
  {
    SameChunks(s.db, s'.db, id);
  }

  lemma {:induction false} RegisterFollows(s: State, e: Event, id: nat)
    requires id in s.db.repos && e.Register?
    ensures ChunksFollow(s, e, DoRegister(s, e.source), id)
  {
    UntouchedFollows(s, e, DoRegister(s, e.source), id);
  }

  lemma {:induction false} SettingsFollow(s: State, e: Event, id: nat)
    requires id in s.db.repos && (e.ChangeSettings? || e.SearchStart? || e.SearchEnd?)
    ensures ChunksFollow(s, e, Next(s, e), id)
  {
    UntouchedFollows(s, e, Next(s, e), id);
  }

  // A repository's chunks and its last pass change only when a job commits for
  // it, or when it is deleted with them: never by a registration, a failure, a
  // crash, or a pass that is still under way.
  lemma {:induction false} OnlyCommitsChangeChunks(s: State, e: Event, id: nat)
    requires Inv(s) && id in s.db.repos
    ensures ChunksFollow(s, e, Next(s, e), id)
  {
    match e
    case Register(_) => RegisterFollows(s, e, id);
    case Delete(_) => DeleteFollows(s, e, id);
    case ChangeSettings(_) => SettingsFollow(s, e, id);
    case SearchStart(_) => SettingsFollow(s, e, id);
    case SearchEnd(_) => SettingsFollow(s, e, id);
    case _ => TaskEventFollows(s, e, id);
  }

  lemma {:induction false} TaskEventFollows(s: State, e: Event, id: nat)
    requires Inv(s) && id in s.db.repos && OfTask(e)
    ensures ChunksFollow(s, e, Next(s, e), id)
  {
    if e.task in s.tasks {
      TaskFollows(s, e, e.task, id);
    } else if !e.Committed? {
      UntouchedFollows(s, e, s, id);
    }
  }

  lemma {:induction false} DeleteFollows(s: State, e: Event, id: nat)
    requires Consistent(s.db) && id in s.db.repos && e.Delete?
    ensures ChunksFollow(s, e, AfterDelete(s, DeleteRequested(s.db, e.repo)), id)
  {
    DeletedConsistent(s.db, e.repo);
  }

  lemma {:induction false} TaskFollows(s: State, e: Event, t: nat, id: nat)
    requires Consistent(s.db) && t in s.tasks && id in s.db.repos && s.tasks[t].repo in s.db.repos && OfTask(e)
              && e.task == t
    ensures ChunksFollow(s, e, TaskStep(s, e, t), id)
  {
    var repo := s.tasks[t].repo;
    if e.Committed? && s.tasks[t].Filling? {
      ReplacedConsistent(s.db, repo, s.tasks[t].inserts, s.tasks[t].embedder, e.now);
    } else if e.RolledBack? {
      DeletedConsistent(s.db, repo);
    } else if e.Recorded? && s.tasks[t].Failing? {
      SameChunks(s.db, FailureWritten(s.db, repo, s.tasks[t].message), id);
    }
  }

  // ---- Registering ----

  // A registration changes nothing exactly if the source has a row that is
  // neither indexed nor failed.
  lemma {:induction false} RegisterRefusedIff(s: State, source: string)
    requires Inv(s)
    ensures Next(s, Register(source)) == s <==> UnderWay(s.db, source)
  {
    RefusedIffUnderWay(s.db, source);
    if Registered(s.db, source).1.Some? {
      assert Next(s, Register(source)).nextTask == s.nextTask + 1;
    }
  }

  // Otherwise it starts a dispatch for the source's row, a new one if there was
  // none, which is then pending with a zero count; the chunks stay, and so does
  // everything else.
  lemma {:induction false} RegisterStarts(s: State, source: string) returns (id: nat)
    requires Inv(s) && !UnderWay(s.db, source)
    ensures
      var s' := Next(s, Register(source));
      && (if HasSource(s.db, source) then IsSource(s.db, id, source) else id == s.db.nextRepo && id !in s.db.repos)
      && IsSource(s'.db, id, source) && s'.tasks == s.tasks[s.nextTask := Dispatching(id)]
      && (var row := s'.db.repos[id];
          && row.indexedAt.None? && row.lastError.None? && row.chunkCount == 0
          && (id in s.db.repos ==> row.provider == s.db.repos[id].provider && row.model == s.db.repos[id].model))
      && OtherRowsSame(s.db, s'.db, id) && s'.db.chunks == s.db.chunks
      && s'.active == s.active && s'.searches == s.searches && s'.passes == s.passes
  {
    RefusedIffUnderWay(s.db, source);
    id := Registered(s.db, source).1.value;
    if HasSource(s.db, source) {
      assert IsSource(s.db, id, source);
    }
  }

  // ---- At most one pass at a time ----

  // While anything is under way for a repository: there is one such task, the
  // row is there and pending, registering again and deleting are refused, and
  // the worker finds the row.
  lemma {:induction false} OutstandingIsAlone(active: Embedder, events: seq<Event>, t: nat)
    requires Named(active) && t in Run(active, events).tasks
    ensures
      var s := Run(active, events);
      var id := s.tasks[t].repo;
      && id in s.db.repos && Pending(s.db.repos[id])
      && (forall u | u in s.tasks && s.tasks[u].repo == id :: u == t)
      && Next(s, Register(s.db.repos[id].source)) == s
      && Next(s, Delete(id)) == s
      && (s.tasks[t].Queued? ==> Next(s, Started(t)) == WithTask(s, t, Running(id)))
  {
    var s := Run(active, events);
    RunKeeps(active, events);
    var source := s.db.repos[s.tasks[t].repo].source;
    assert IsSource(s.db, s.tasks[t].repo, source) && IsSource(s.db, IdOf(s.db, source), source);
    UnchangedDelete(s);
  }

  // ---- Rolling back ----

  // The state after more events.
  ghost function After(s: State, events: seq<Event>): State
    decreases |events|
  {
    if events == [] then s else After(Next(s, events[0]), events[1..])
  }

  predicate NotOf(e: Event, t: nat) {
    OfTask(e) ==> e.task != t
  }

  lemma {:induction false} OtherTaskLeaves(s: State, e: Event, t: nat)
    requires t in s.tasks && OfTask(e) && e.task in s.tasks && e.task != t
    ensures t in TaskStep(s, e, e.task).tasks && TaskStep(s, e, e.task).tasks[t] == s.tasks[t]
  {
    TasksKept(s, e, e.task);
    assert t in s.tasks - {e.task} && (s.tasks - {e.task})[t] == s.tasks[t];
  }

  lemma {:induction false} RequestLeaves(s: State, e: Event, t: nat)
    requires t in s.tasks && t < s.nextTask && !OfTask(e)
    ensures t in Next(s, e).tasks && Next(s, e).tasks[t] == s.tasks[t]
  {
  }

  lemma {:induction false} OthersLeaveTask(s: State, e: Event, t: nat)
    requires Inv(s) && t in s.tasks && NotOf(e, t)
    ensures Inv(Next(s, e)) && t in Next(s, e).tasks && Next(s, e).tasks[t] == s.tasks[t]
  {
    assert Inv(Next(s, e)) by {
      NextKeeps(s, e);
    }
    if !OfTask(e) {
      RequestLeaves(s, e, t);
    } else if e.task in s.tasks {
      OtherTaskLeaves(s, e, t);
    }
  }

  lemma {:induction false} TaskWaits(s: State, events: seq<Event>, t: nat)
    requires Inv(s) && t in s.tasks && forall i | 0 <= i < |events| :: NotOf(events[i], t)
    ensures Inv(After(s, events)) && t in After(s, events).tasks && After(s, events).tasks[t] == s.tasks[t]
    decreases |events|
  {
    if events != [] {
      OthersLeaveTask(s, events[0], t);
      TaskWaits(Next(s, events[0]), events[1..], t);
    }
  }

  // The repository's row and chunks are in b what they are in a.
  ghost predicate SameRepo(a: Db, b: Db, id: nat) {
    && (id in a.repos <==> id in b.repos) && (id in a.repos ==> a.repos[id] == b.repos[id])
    && ChunksOf(a, id) == ChunksOf(b, id)
  }

  // The request registers the source as repository id, fails to enqueue, and
  // rolls back; anything else may happen in between.
  ghost function RolledBackRun(s: State, source: string, between: seq<Event>, later: seq<Event>): State {
    var t := s.nextTask;
    Next(After(Next(After(Next(s, Register(source)), between), EnqueueFailed(t)), later), RolledBack(t))
  }

  lemma {:induction false} RegisterDispatches(s: State, source: string)
    requires Inv(s) && Registered(s.db, source).1.Some?
    ensures
      var s1 := Next(s, Register(source));
      Inv(s1) && s.nextTask in s1.tasks && s1.tasks[s.nextTask] == Dispatching(Registered(s.db, source).1.value)
  {
    NextKeeps(s, Register(source));
  }

  // A dispatch that fails ends with its repository gone, whatever else happens.
  lemma {:induction false} DispatchRollsBack(s: State, t: nat, between: seq<Event>, later: seq<Event>)
    requires Inv(s) && t in s.tasks && s.tasks[t].Dispatching?
    requires forall e | e in between || e in later :: NotOf(e, t)
    ensures
      var id, s' := s.tasks[t].repo, Next(After(Next(After(s, between), EnqueueFailed(t)), later), RolledBack(t));
      id !in s'.db.repos && ChunksOf(s'.db, id) == {}
  {
    TaskWaits(s, between, t);
    var s2 := After(s, between);
    var s3 := WithTask(s2, t, RollingBack(s.tasks[t].repo));
    assert Next(s2, EnqueueFailed(t)) == s3;
    assert Inv(s3) by {
      WithTaskKeeps(s2, t, RollingBack(s.tasks[t].repo));
    }
    TaskWaits(s3, later, t);
    RollbackDeletes(After(s3, later), t);
  }

  lemma {:induction false} RunRollsBack(s: State, source: string, between: seq<Event>, later: seq<Event>)
    requires Inv(s) && Registered(s.db, source).1.Some?
    requires forall e | e in between || e in later :: NotOf(e, s.nextTask)
    ensures
      var id, s' := Registered(s.db, source).1.value, RolledBackRun(s, source, between, later);
      id !in s'.db.repos && ChunksOf(s'.db, id) == {}
  {
    RegisterDispatches(s, source);
    DispatchRollsBack(Next(s, Register(source)), s.nextTask, between, later);
  }

  lemma {:induction false} RegisteredBefore(s: State, source: string)
    requires Inv(s) && Registered(s.db, source).1.Some?
    ensures
      var id := Registered(s.db, source).1.value;
      (HasSource(s.db, source) <==> id in s.db.repos) && (!HasSource(s.db, source) ==> ChunksOf(s.db, id) == {})
  {
  }

  // The rollback always deletes the row and all chunks, also of a repository
  // that was ready or failed before: it leaves the repository as the request
  // found it exactly when the request created it.
  lemma {:induction false} RollbackRestoresIff(s: State, source: string, between: seq<Event>, later: seq<Event>)
    requires Inv(s) && Registered(s.db, source).1.Some?
    requires forall e | e in between || e in later :: NotOf(e, s.nextTask)
    ensures
      var id, s' := Registered(s.db, source).1.value, RolledBackRun(s, source, between, later);
      id !in s'.db.repos && ChunksOf(s'.db, id) == {} && (SameRepo(s.db, s'.db, id) <==> !HasSource(s.db, source))
  {
    RunRollsBack(s, source, between, later);
    RegisteredBefore(s, source);
  }

  lemma {:induction false} RollbackTables(s: State, t: nat)
    requires Inv(s) && t in s.tasks && s.tasks[t].Dispatching?
    ensures Next(Next(s, EnqueueFailed(t)), RolledBack(t)).db == Deleted(s.db, s.tasks[t].repo)
  {
    var s1 := WithTask(s, t, RollingBack(s.tasks[t].repo));
    assert Next(s, EnqueueFailed(t)) == s1;
    assert Inv(s1) by {
      WithTaskKeeps(s, t, RollingBack(s.tasks[t].repo));
    }
    assert PristineDeleted(s1.db, s1.tasks[t].repo) == Deleted(s1.db, s1.tasks[t].repo) by {
      RollbackKeeps(s1, t);
    }
  }

  // With nothing in between, the same holds of the whole store.
  lemma {:induction false} RollbackRestoresStoreIff(s: State, source: string)
    requires Inv(s) && Registered(s.db, source).1.Some?
    ensures
      var db := Next(Next(Next(s, Register(source)), EnqueueFailed(s.nextTask)), RolledBack(s.nextTask)).db;
      db.repos == s.db.repos && db.chunks == s.db.chunks <==> !HasSource(s.db, source)
  {
    var s1 := Next(s, Register(source));
    assert s1.db == Registered(s.db, source).0;
    RegisterDispatches(s, source);
    RollbackTables(s1, s.nextTask);
    DeleteUndoesInsert(s, source);
  }

  // Deleting what registering touched gives the old tables back exactly if the
  // row was new.
  lemma {:induction false} DeleteUndoesInsert(s: State, source: string)
    requires Inv(s) && Registered(s.db, source).1.Some?
    ensures
      var (db, id) := Registered(s.db, source);
      var after := Deleted(db, id.value);
      after.repos == s.db.repos && after.chunks == s.db.chunks <==> !HasSource(s.db, source)
  {
    RegisteredBefore(s, source);
    var id := Registered(s.db, source).1.value;
    if !HasSource(s.db, source) {
      assert RepoInserted(s.db, source).repos - {id} == s.db.repos;
    }
  }

  lemma {:induction false} RollbackDeletes(s: State, t: nat)
    requires Inv(s) && t in s.tasks && s.tasks[t].RollingBack?
    ensures
      var id, s' := s.tasks[t].repo, Next(s, RolledBack(t));
      id !in s'.db.repos && ChunksOf(s'.db, id) == {} && s'.tasks == s.tasks - {t}
  {
    var id := s.tasks[t].repo;
    assert Next(s, RolledBack(t)) == AfterDelete(Without(s, t), Deleted(s.db, id)) by {
      RollbackKeeps(s, t);
    }
    assert ChunksOf(Deleted(s.db, id), id) == {};
  }

  // ---- Rows that stay pending ----

  // Pending, with nothing under way that could change it.
  ghost predicate Stranded(s: State, id: nat) {
    id in s.db.repos && Pending(s.db.repos[id]) && forall t | t in s.tasks :: s.tasks[t].repo != id
  }

  // The task that the event ends without a word in the row.
  predicate Abandons(s: State, e: Event, id: nat) {
    && OfTask(e) && e.task in s.tasks && s.tasks[e.task].repo == id
    && ((e.QueueUnreachable? && s.tasks[e.task].Dispatching?) || (e.Crashed? && IsJob(s.tasks[e.task])))
  }

  // A row is stranded exactly by a queue that cannot be reached while its
  // request is dispatching, or by a job that ends on any other exception.
  lemma {:induction false} StrandedExactlyWhen(s: State, e: Event, id: nat)
    requires Inv(s)
    ensures Stranded(Next(s, e), id) <==> Stranded(s, id) || Abandons(s, e, id)
  {
    if OfTask(e) {
      if e.task in s.tasks { StrandedByTask(s, e, e.task, id); }
    } else if e.Register? {
      StrandedByRegister(s, e.source, id);
    } else if e.Delete? {
      UnchangedDelete(s);
    }
  }

  lemma {:induction false} StrandedByRegister(s: State, source: string, id: nat)
    requires Inv(s)
    ensures Stranded(DoRegister(s, source), id) <==> Stranded(s, id)
  {
    var s' := DoRegister(s, source);
    if Registered(s.db, source).1.Some? {
      var changed := Registered(s.db, source).1.value;
      assert s'.tasks[s.nextTask].repo == changed;
      if id != changed {
        assert forall t | t in s.tasks :: s'.tasks[t] == s.tasks[t];
      }
    }
  }

  lemma {:induction false} StrandedByTask(s: State, e: Event, t: nat, id: nat)
    requires Inv(s) && t in s.tasks && OfTask(e) && e.task == t
    ensures Stranded(TaskStep(s, e, t), id) <==> Stranded(s, id) || Abandons(s, e, id)
  {
    var s' := TaskStep(s, e, t);
    TasksKept(s, e, t);
    if s.tasks[t].repo != id {
      RowsKept(s, e, t, id);
      forall u | u in s'.tasks ensures u in s.tasks && s'.tasks[u].repo == s.tasks[u].repo {
        assert u == t || u in s'.tasks - {t};
      }
      forall u | u in s.tasks && u != t ensures u in s'.tasks && s'.tasks[u] == s.tasks[u] {
        assert u in s.tasks - {t};
      }
    } else if t !in s'.tasks {
      EndedTask(s, e, t);
    }
  }

  // A task's event touches no other task and no other row.
  lemma {:induction false} TasksKept(s: State, e: Event, t: nat)
    requires t in s.tasks && OfTask(e) && e.task == t
    ensures
      var s' := TaskStep(s, e, t);
      && s'.tasks - {t} == s.tasks - {t}
      && (t in s'.tasks ==> s'.tasks[t].repo == s.tasks[t].repo)
      && (Abandons(s, e, s.tasks[t].repo) ==> t !in s'.tasks)
  {
  }

  lemma {:induction false} RowsKept(s: State, e: Event, t: nat, id: nat)
    requires t in s.tasks && OfTask(e) && e.task == t && id != s.tasks[t].repo
    ensures
      var s' := TaskStep(s, e, t);
      (id in s'.db.repos <==> id in s.db.repos) && (id in s.db.repos ==> s'.db.repos[id] == s.db.repos[id])
  {
  }

  // A task that ends leaves its row ready, failed or gone, unless abandoned.
  lemma {:induction false} EndedTask(s: State, e: Event, t: nat)
    requires Inv(s) && t in s.tasks && OfTask(e) && e.task == t && t !in TaskStep(s, e, t).tasks
    ensures
      var id, s' := s.tasks[t].repo, TaskStep(s, e, t);
      if Abandons(s, e, id) then
        id in s'.db.repos && Pending(s'.db.repos[id]) && forall u | u in s'.tasks :: s'.tasks[u].repo != id
      else id in s'.db.repos ==> !Pending(s'.db.repos[id])
  {
    if e.RolledBack? {
      assert PristineDeleted(s.db, s.tasks[t].repo) == Deleted(s.db, s.tasks[t].repo) by {
        RollbackKeeps(s, t);
      }
    }
  }

  // Nothing ever changes a stranded row: it stays pending in every
  // continuation, so it can be neither searched, indexed again, nor deleted.
  lemma {:induction false} StrandedForever(active: Embedder, events: seq<Event>, more: seq<Event>, id: nat)
    requires Named(active) && Stranded(Run(active, events), id)
    ensures Stranded(Run(active, events + more), id)
    decreases |more|
  {
    if more == [] {
      assert events + more == events;
    } else {
      var n := |more| - 1;
      var before := events + more[..n];
      var s := Run(active, before);
      assert Run(active, events + more) == Next(s, more[n]) by {
        assert (events + more)[..|events| + n] == before;
      }
      StrandedForever(active, events, more[..n], id);
      assert Inv(s) by {
        RunKeeps(active, before);
      }
      StrandedExactlyWhen(s, more[n], id);
    }
  }

  lemma {:induction false} RunSnoc(active: Embedder, events: seq<Event>, e: Event)
    ensures Run(active, events + [e]) == Next(Run(active, events), e)
  {
    assert (events + [e])[..|events|] == events;
  }

  // Event k of the run abandons the row.
  ghost predicate AbandonedAt(active: Embedder, events: seq<Event>, k: nat, id: nat) {
    k < |events| && Abandons(Run(active, events[..k]), events[k], id)
  }

  ghost predicate AbandonedIn(active: Embedder, events: seq<Event>, id: nat) {
    exists k: nat :: AbandonedAt(active, events, k, id)
  }

  lemma {:induction false} AbandonedSnoc(active: Embedder, events: seq<Event>, e: Event, id: nat)
    ensures AbandonedIn(active, events + [e], id)
       <==> AbandonedIn(active, events, id) || Abandons(Run(active, events), e, id)
  {
    var all := events + [e];
    forall k: nat | k < |events| ensures AbandonedAt(active, all, k, id) <==> AbandonedAt(active, events, k, id) {
      assert all[..k] == events[..k];
    }
    assert all[..|events|] == events;
    assert AbandonedAt(active, all, |events|, id) <==> Abandons(Run(active, events), e, id);
    if AbandonedIn(active, all, id) {
      var k: nat :| AbandonedAt(active, all, k, id);
      assert k < |events| ==> AbandonedAt(active, events, k, id);
    }
    if AbandonedIn(active, events, id) {
      var k: nat :| AbandonedAt(active, events, k, id);
      assert AbandonedAt(active, all, k, id);
    }
  }

  // At the end of a run a row is stranded exactly if some event abandoned it.
  lemma {:induction false} StrandedRunIff(active: Embedder, events: seq<Event>, id: nat)
    requires Named(active)
    ensures Stranded(Run(active, events), id) <==> AbandonedIn(active, events, id)
    decreases |events|
  {
    if events != [] {
      var n := |events| - 1;
      var before, e := events[..n], events[n];
      assert events == before + [e];
      RunSnoc(active, before, e);
      AbandonedSnoc(active, before, e, id);
      StrandedRunIff(active, before, id);
      assert Inv(Run(active, before)) by {
        RunKeeps(active, before);
      }
      StrandedExactlyWhen(Run(active, before), e, id);
    }
  }

  // The shortest such run: the first registration meets a queue that cannot be
  // reached.
  lemma {:induction false} StrandedAtOnce(active: Embedder, source: string)
    requires Named(active)
    ensures Stranded(Run(active, [Register(source), QueueUnreachable(0)]), 0)
  {
    FirstRegistered(active, source);
    var s := Run(active, [Register(source)]);
    assert [Register(source), QueueUnreachable(0)] == [Register(source)] + [QueueUnreachable(0)];
    RunSnoc(active, [Register(source)], QueueUnreachable(0));
    assert Next(s, QueueUnreachable(0)) == Without(s, 0);
  }

  lemma {:induction false} FirstRegistered(active: Embedder, source: string)
    ensures
      var s := Run(active, [Register(source)]);
      s == WithDispatch(Init(active), RepoInserted(Init(active).db, source), 0)
  {
    assert [] + [Register(source)] == [Register(source)];
    RunSnoc(active, [], Register(source));
    assert !HasSource(Init(active).db, source);
  }
}
