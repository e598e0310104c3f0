// The life of an indexed repository: register, enqueue, swap chunks or fail,
// delete, with search admitted only to ready repositories.  Every step is one
// committed transaction or one step of a worker, in any interleaving.

module Lifecycle {
  import opened Chunks
  import opened RepoStore

  // ---- The transactions of the indexing service ----

  ghost function IdOf(db: Db, source: string): nat
    requires HasSource(db, source)
  {
    var id :| IsSource(db, id, source);
    id
  }

  // Pending again, whatever it was.
  function ResetRow(db: Db, id: nat): Db
    requires id in db.repos
  {
    db.(repos := db.repos[id := db.repos[id].(indexedAt := None, lastError := None, chunkCount := 0)])
  }

  // Insert or reset the row; refused while a pass is due or under way.
  ghost function Registered(db: Db, source: string): (Db, Option<nat>) {
    if !HasSource(db, source) then (RepoInserted(db, source), Some(db.nextRepo))
    else
      var id := IdOf(db, source);
      if Pending(db.repos[id]) then (db, None)
      else (ResetRow(db, id), Some(id))
  }

  // The source has a row with neither a time of indexing nor an error.
  ghost predicate UnderWay(db: Db, source: string) {
    exists id :: IsSource(db, id, source) && db.repos[id].indexedAt.None? && db.repos[id].lastError.None?
  }

  lemma {:induction false} RefusedIffUnderWay(db: Db, source: string)
    requires Consistent(db)
    ensures Registered(db, source).1.None? <==> UnderWay(db, source)
  {
    if HasSource(db, source) {
      var id := IdOf(db, source);
      assert IsSource(db, id, source);
      assert forall j | IsSource(db, j, source) :: j == id;
    }
  }

  function PristineDeleted(db: Db, id: nat): Db {
    if id in db.repos && db.repos[id].indexedAt.None? && db.repos[id].chunkCount == 0 then Deleted(db, id) else db
  }

  // A delete request; refused for an unknown or a pending repository.
  function DeleteRequested(db: Db, id: nat): Db {
    if id in db.repos && !Pending(db.repos[id]) then Deleted(db, id) else db
  }

  datatype DeleteOutcome = Removed | NotFound | DeleteDuringIndex

  // None stands for the ALREADY_INDEXING error.
  method RegisterAsync(db: Database, source: string) returns (repoId: Option<nat>)
    requires Consistent(db.Tables())
    modifies db
    ensures (db.Tables(), repoId) == Registered(old(db.Tables()), source)
    ensures repoId.None? <==> UnderWay(old(db.Tables()), source)
  {
    ghost var before := db.Tables();
    RefusedIffUnderWay(before, source);
    var id, created := db.UpsertRepo(source);
    assert !created ==> IsSource(before, id, source) && IsSource(before, IdOf(before, source), source);
    if !created && db.repos[id].indexedAt.None? && db.repos[id].lastError.None? {
      return None;
    }
    db.repos := db.repos[id := db.repos[id].(indexedAt := None, lastError := None, chunkCount := 0)];
    assert created ==> db.repos == RepoInserted(before, source).repos;
    repoId := Some(id);
  }

  method DeleteIfPristine(db: Database, repoId: nat)
    modifies db
    ensures db.Tables() == PristineDeleted(old(db.Tables()), repoId)
  {
    var row := db.FetchRepo(repoId);
    if row.Some? && row.value.indexedAt.None? && row.value.chunkCount == 0 {
      var _ := db.DeleteRepoById(repoId);
    }
  }

  method DeleteRepo(db: Database, repoId: nat) returns (outcome: DeleteOutcome)
    modifies db
    ensures db.Tables() == DeleteRequested(old(db.Tables()), repoId)
    ensures outcome == (if repoId !in old(db.repos) then NotFound
                        else if Pending(old(db.repos)[repoId]) then DeleteDuringIndex
                        else Removed)
  {
    var row := db.FetchRepo(repoId);
    if row.None? {
      return NotFound;
    }
    if row.value.indexedAt.None? && row.value.lastError.None? {
      return DeleteDuringIndex;
    }
    var removed := db.DeleteRepoById(repoId);
    outcome := if removed then Removed else NotFound;
  }

  // ---- The system ----

  // What is under way for one repository: the request handler between
  // registering and enqueueing, then the queued or running job.
  datatype Task =
    | Dispatching(repo: nat)
    | RollingBack(repo: nat)
    | Queued(repo: nat)
    | Running(repo: nat)
    | Filling(repo: nat, inserts: seq<ChunkInsert>, embedder: Embedder)
    | Failing(repo: nat, message: string)

  // A search past the gate: the settings it embeds its queries with.  `steady`
  // records that the settings have not changed since the gate.
  datatype Search = Search(repo: nat, embedder: Embedder, steady: bool)

  // The last pass that succeeded for a repository.
  datatype Pass = Pass(firstId: nat, inserts: seq<ChunkInsert>, embedder: Embedder)

  // `active` is the embedder the settings name.  `passes` and `steady` only
  // record history; no step depends on them.
  datatype State = State(db: Db, active: Embedder, tasks: map<nat, Task>, nextTask: nat,
                         searches: map<nat, Search>, nextSearch: nat, passes: map<nat, Pass>)

  datatype Event =
    | Register(source: string)                  // _register_async
    | Enqueued(task: nat)                       // enqueue_index_repo returned
    | EnqueueFailed(task: nat)                  // RedisError or OSError, caught by dispatch
    | QueueUnreachable(task: nat)               // JobError, not caught by dispatch
    | RolledBack(task: nat)                     // _delete_if_pristine
    | Started(task: nat)                        // the worker read the row
    | Embedded(task: nat, inserts: seq<ChunkInsert>)   // chunked and embedded under the current settings
    | Committed(task: nat, now: int)            // replace_chunks
    | Failed(task: nat, message: string)        // IndexError during the pass
    | Recorded(task: nat)                       // _record_failure
    | Crashed(task: nat)                        // any other exception of the job
    | Delete(repo: nat)                         // delete_repo
    | ChangeSettings(embedder: Embedder)
    | SearchStart(repo: nat)                    // search reads the row and passes the gate
    | SearchEnd(search: nat)

  predicate IsJob(t: Task) {
    t.Queued? || t.Running? || t.Filling? || t.Failing?
  }

  // The gate of RetrievalService.search; an unset or empty name passes.
  predicate Gate(r: Repo, active: Embedder) {
    && r.indexedAt.Some?
    && (r.provider.Some? && r.provider.value != "" ==> r.provider.value == active.provider)
    && (r.model.Some? && r.model.value != "" ==> r.model.value == active.model)
  }

  function WithTask(s: State, t: nat, task: Task): State {
    s.(tasks := s.tasks[t := task])
  }

  function Without(s: State, t: nat): State {
    s.(tasks := s.tasks - {t})
  }

  function WithDispatch(s: State, db: Db, id: nat): State {
    s.(db := db, tasks := s.tasks[s.nextTask := Dispatching(id)], nextTask := s.nextTask + 1)
  }

  ghost function DoRegister(s: State, source: string): State {
    var (db, id) := Registered(s.db, source);
    if id.None? then s
    else WithDispatch(s, db, id.value)
  }

  function DoCommit(s: State, t: nat, now: int): State
    requires t in s.tasks && s.tasks[t].Filling?
  {
    var task := s.tasks[t];
    if task.repo in s.db.repos then
      Without(s, t).(db := Replaced(s.db, task.repo, task.inserts, task.embedder, now),
                     passes := s.passes[task.repo := Pass(s.db.nextChunk, task.inserts, task.embedder)])
    else Without(s, t)
  }

  function AfterDelete(s: State, db: Db): State {
    s.(db := db, passes := map i | i in s.passes && i in db.repos :: s.passes[i])
  }

  function DoChangeSettings(s: State, embedder: Embedder): State {
    s.(active := embedder, searches := map q | q in s.searches :: s.searches[q].(steady := false))
  }

  function DoSearch(s: State, id: nat): State {
    if id in s.db.repos && Gate(s.db.repos[id], s.active) then
      s.(searches := s.searches[s.nextSearch := Search(id, s.active, true)], nextSearch := s.nextSearch + 1)
    else s
  }

  // A task's own events.
  function TaskStep(s: State, e: Event, t: nat): State
    requires t in s.tasks
  {
    var task := s.tasks[t];
    match e
    case Enqueued(_) => if task.Dispatching? then WithTask(s, t, Queued(task.repo)) else s
    case EnqueueFailed(_) => if task.Dispatching? then WithTask(s, t, RollingBack(task.repo)) else s
    case QueueUnreachable(_) => if task.Dispatching? then Without(s, t) else s
    case RolledBack(_) => if task.RollingBack? then AfterDelete(Without(s, t), PristineDeleted(s.db, task.repo)) else s
    case Started(_) =>
      if !task.Queued? then s
      else if task.repo in s.db.repos then WithTask(s, t, Running(task.repo)) else Without(s, t)
    case Embedded(_, inserts) => if task.Running? then WithTask(s, t, Filling(task.repo, inserts, s.active)) else s
    case Committed(_, now) => if task.Filling? then DoCommit(s, t, now) else s
    case Failed(_, message) => if task.Running? || task.Filling? then WithTask(s, t, Failing(task.repo, message)) else s
    case Recorded(_) => if task.Failing? then Without(s, t).(db := FailureWritten(s.db, task.repo, task.message)) else s
    case Crashed(_) => if IsJob(task) then Without(s, t) else s
    case _ => s
  }

  predicate OfTask(e: Event) {
    !(e.Register? || e.Delete? || e.ChangeSettings? || e.SearchStart? || e.SearchEnd?)
  }

  ghost function Next(s: State, e: Event): State {
    if OfTask(e) then (if e.task in s.tasks then TaskStep(s, e, e.task) else s)
    else
      match e
      case Register(source) => DoRegister(s, source)
      case Delete(id) => AfterDelete(s, DeleteRequested(s.db, id))
      case ChangeSettings(embedder) =>
        if embedder.provider != "" && embedder.model != "" then DoChangeSettings(s, embedder) else s
      case SearchStart(id) => DoSearch(s, id)
      case SearchEnd(q) => s.(searches := s.searches - {q})
  }

  function Init(active: Embedder): State {
    State(Db(map[], {}, 0, 0), active, map[], 0, map[], 0, map[])
  }

  // The state after a run; an event that is not possible changes nothing.
  ghost function Run(active: Embedder, events: seq<Event>): State {
    if events == [] then Init(active) else Next(Run(active, events[..|events| - 1]), events[|events| - 1])
  }

  // ---- The invariant ----

  // Every task's repository is there and pending, and has no other task.
  ghost predicate TasksOk(s: State) {
    && (forall t | t in s.tasks :: t < s.nextTask)
    && (forall t | t in s.tasks :: s.tasks[t].repo in s.db.repos && Pending(s.db.repos[s.tasks[t].repo]))
    && (forall t, u | t in s.tasks && u in s.tasks && s.tasks[t].repo == s.tasks[u].repo :: t == u)
    && (forall t | t in s.tasks && s.tasks[t].Filling? :: Named(s.tasks[t].embedder))
  }

  predicate Named(e: Embedder) {
    e.provider != "" && e.model != ""
  }

  // The row and the chunks of repository id agree with its last pass.
  ghost predicate RowOk(db: Db, passes: map<nat, Pass>, id: nat)
    requires id in db.repos
  {
    var r := db.repos[id];
    && (id in passes ==>
          && ChunksOf(db, id) == NewRows(passes[id].firstId, id, passes[id].inserts, passes[id].embedder)
          && r.provider == Some(passes[id].embedder.provider) && r.model == Some(passes[id].embedder.model)
          && Named(passes[id].embedder))
    && (id !in passes ==> ChunksOf(db, id) == {} && r.indexedAt.None?)
    && (r.indexedAt.Some? ==> id in passes && r.chunkCount == |passes[id].inserts| && r.lastError.None?)
    && (r.indexedAt.None? ==> r.chunkCount == 0)
  }

  ghost predicate RowsOk(s: State) {
    (forall id | id in s.db.repos :: RowOk(s.db, s.passes, id)) && (forall id | id in s.passes :: id in s.db.repos)
  }

  // A search under steady settings: its repository's chunks, now and after the
  // next commit, are embedded as its queries are.
  ghost predicate SearchOk(s: State, q: Search) {
    && q.repo < s.db.nextRepo
    && (q.steady ==>
          && q.embedder == s.active
          && (q.repo in s.passes ==> s.passes[q.repo].embedder == q.embedder)
          && (forall t | t in s.tasks && s.tasks[t].Filling? && s.tasks[t].repo == q.repo ::
                 s.tasks[t].embedder == q.embedder))
  }

  ghost predicate SearchesOk(s: State) {
    (forall q | q in s.searches :: SearchOk(s, s.searches[q])) && (forall q | q in s.searches :: q < s.nextSearch)
  }

  ghost predicate Inv(s: State) {
    Consistent(s.db) && Named(s.active) && TasksOk(s) && RowsOk(s) && SearchesOk(s)
  }

  // ---- Every step keeps it ----

  // Rows untouched, and their chunks: nothing changes for them.
  lemma {:induction false} RowFrame(db: Db, db': Db, passes: map<nat, Pass>, passes': map<nat, Pass>, id: nat)
    requires id in db.repos && RowOk(db, passes, id)
    requires id in db'.repos && db'.repos[id] == db.repos[id] && ChunksOf(db', id) == ChunksOf(db, id)
    requires (id in passes <==> id in passes') && (id in passes ==> passes'[id] == passes[id])
    ensures RowOk(db', passes', id)
  {
  }

  lemma {:induction false} SameChunks(db: Db, db': Db, id: nat)
    requires db'.chunks == db.chunks
    ensures ChunksOf(db', id) == ChunksOf(db, id)
  {
  }

  lemma {:induction false} InsertRows(s: State, source: string)
    requires Inv(s) && !HasSource(s.db, source)
    ensures Consistent(RepoInserted(s.db, source))
    ensures forall i | i in RepoInserted(s.db, source).repos :: RowOk(RepoInserted(s.db, source), s.passes, i)
  {
    var db := RepoInserted(s.db, source);
    forall i | i in s.db.repos ensures s.db.repos[i].source != source && RowOk(db, s.passes, i) {
      assert !IsSource(s.db, i, source);
      RowFrame(s.db, db, s.passes, s.passes, i);
    }
    assert ChunksOf(db, s.db.nextRepo) == {};
  }

  lemma {:induction false} InsertKeeps(s: State, source: string)
    requires Inv(s) && !HasSource(s.db, source)
    ensures Inv(DoRegister(s, source))
  {
    InsertRows(s, source);
    DispatchTasks(s, RepoInserted(s.db, source), s.db.nextRepo);
    DispatchSearches(s, RepoInserted(s.db, source), s.db.nextRepo);
  }

  lemma {:induction false} ResetKeeps(s: State, source: string)
    requires Inv(s) && HasSource(s.db, source) && !Pending(s.db.repos[IdOf(s.db, source)])
    ensures Inv(DoRegister(s, source))
  {
    ResetRowKeeps(s, IdOf(s.db, source));
  }

  lemma {:induction false} ResetRows(s: State, id: nat)
    requires Inv(s) && id in s.db.repos
    ensures Consistent(ResetRow(s.db, id))
    ensures forall i | i in ResetRow(s.db, id).repos :: RowOk(ResetRow(s.db, id), s.passes, i)
  {
    var db := ResetRow(s.db, id);
    forall i | i in db.repos ensures RowOk(db, s.passes, i) {
      assert RowOk(s.db, s.passes, i);
      SameChunks(s.db, db, i);
    }
  }

  lemma {:induction false} DispatchTasks(s: State, db: Db, id: nat)
    requires TasksOk(s) && id in db.repos && Pending(db.repos[id])
    requires forall i | i in s.db.repos && i != id :: i in db.repos && db.repos[i] == s.db.repos[i]
    requires forall t | t in s.tasks :: s.tasks[t].repo != id
    ensures TasksOk(WithDispatch(s, db, id))
  {
  }

  lemma {:induction false} DispatchSearches(s: State, db: Db, id: nat)
    requires SearchesOk(s) && db.nextRepo >= s.db.nextRepo
    ensures SearchesOk(WithDispatch(s, db, id))
  {
    var s' := WithDispatch(s, db, id);
    forall q | q in s'.searches ensures SearchOk(s', s'.searches[q]) {
      assert SearchOk(s, s.searches[q]);
    }
  }

  lemma {:induction false} ResetRowKeeps(s: State, id: nat)
    requires Inv(s) && id in s.db.repos && !Pending(s.db.repos[id])
    ensures Inv(WithDispatch(s, ResetRow(s.db, id), id))
  {
    ResetRows(s, id);
    DispatchTasks(s, ResetRow(s.db, id), id);
    DispatchSearches(s, ResetRow(s.db, id), id);
  }

  lemma {:induction false} RegisterKeeps(s: State, source: string)
    requires Inv(s)
    ensures Inv(DoRegister(s, source))
  {
    if !HasSource(s.db, source) {
      InsertKeeps(s, source);
    } else if !Pending(s.db.repos[IdOf(s.db, source)]) {
      ResetKeeps(s, source);
    }
  }

  // Removing a repository that no task works on.
  lemma {:induction false} DeleteKeeps(s: State, id: nat)
    requires Inv(s) && forall t | t in s.tasks :: s.tasks[t].repo != id
    ensures Inv(AfterDelete(s, Deleted(s.db, id)))
  {
    var db := Deleted(s.db, id);
    var s' := AfterDelete(s, db);
    DeletedConsistent(s.db, id);
    forall i | i in db.repos ensures RowOk(db, s'.passes, i) {
      RowFrame(s.db, db, s.passes, s'.passes, i);
    }
    assert SearchesOk(s');
  }

  lemma {:induction false} UnchangedDelete(s: State)
    requires Inv(s)
    ensures AfterDelete(s, s.db) == s
  {
  }

  // Dropping a task.
  lemma {:induction false} WithoutKeeps(s: State, t: nat)
    requires Inv(s)
    ensures Inv(Without(s, t))
  {
  }

  // Moving a task on.
  lemma {:induction false} WithTaskKeeps(s: State, t: nat, task: Task)
    requires Inv(s) && t in s.tasks && task.repo == s.tasks[t].repo
    requires task.Filling? ==> task.embedder == s.active
    ensures Inv(WithTask(s, t, task))
  {
    var s' := WithTask(s, t, task);
    assert TasksOk(s');
    forall q | q in s'.searches ensures SearchOk(s', s'.searches[q]) {
      assert SearchOk(s, s.searches[q]);
    }
  }

  lemma {:induction false} RollbackKeeps(s: State, t: nat)
    requires Inv(s) && t in s.tasks
    ensures Inv(AfterDelete(Without(s, t), PristineDeleted(s.db, s.tasks[t].repo)))
    ensures PristineDeleted(s.db, s.tasks[t].repo) == Deleted(s.db, s.tasks[t].repo)
  {
    assert RowOk(s.db, s.passes, s.tasks[t].repo);
    WithoutKeeps(s, t);
    DeleteKeeps(Without(s, t), s.tasks[t].repo);
  }

  lemma {:induction false} RecordRows(s: State, t: nat)
    requires Inv(s) && t in s.tasks && s.tasks[t].Failing?
    ensures
      var db := FailureWritten(s.db, s.tasks[t].repo, s.tasks[t].message);
      Consistent(db) && RowsOk(Without(s, t).(db := db))
  {
    var db := FailureWritten(s.db, s.tasks[t].repo, s.tasks[t].message);
    forall i | i in db.repos ensures RowOk(db, s.passes, i) {
      SameChunks(s.db, db, i);
      assert RowOk(s.db, s.passes, i);
    }
  }

  lemma {:induction false} RecordKeeps(s: State, t: nat)
    requires Inv(s) && t in s.tasks && s.tasks[t].Failing?
    ensures Inv(Without(s, t).(db := FailureWritten(s.db, s.tasks[t].repo, s.tasks[t].message)))
  {
    RecordRows(s, t);
  }

  lemma {:induction false} CommitRows(s: State, t: nat, now: int)
    requires Inv(s) && t in s.tasks && s.tasks[t].Filling?
    ensures RowsOk(DoCommit(s, t, now)) && Consistent(DoCommit(s, t, now).db)
  {
    var id, s' := s.tasks[t].repo, DoCommit(s, t, now);
    ReplacedConsistent(s.db, id, s.tasks[t].inserts, s.tasks[t].embedder, now);
    forall i | i in s'.db.repos ensures RowOk(s'.db, s'.passes, i) {
      if i != id {
        RowFrame(s.db, s'.db, s.passes, s'.passes, i);
      }
    }
  }

  lemma {:induction false} CommitTasks(s: State, t: nat, now: int)
    requires Inv(s) && t in s.tasks && s.tasks[t].Filling?
    ensures TasksOk(DoCommit(s, t, now))
  {
  }

  lemma {:induction false} CommitSearches(s: State, t: nat, now: int)
    requires Inv(s) && t in s.tasks && s.tasks[t].Filling?
    ensures SearchesOk(DoCommit(s, t, now))
  {
    var s' := DoCommit(s, t, now);
    forall q | q in s'.searches ensures SearchOk(s', s'.searches[q]) {
      assert SearchOk(s, s.searches[q]);
    }
  }

  lemma {:induction false} CommitKeeps(s: State, t: nat, now: int)
    requires Inv(s) && t in s.tasks && s.tasks[t].Filling?
    ensures Inv(DoCommit(s, t, now))
  {
    CommitRows(s, t, now);
    CommitTasks(s, t, now);
    CommitSearches(s, t, now);
  }

  lemma {:induction false} ChangeSettingsKeeps(s: State, embedder: Embedder)
    requires Inv(s) && Named(embedder)
    ensures Inv(DoChangeSettings(s, embedder))
  {
  }

  // At the gate: the row is ready, so no task can be under way for it.
  lemma {:induction false} SearchKeeps(s: State, id: nat)
    requires Inv(s)
    ensures Inv(DoSearch(s, id))
  {
    if id in s.db.repos && Gate(s.db.repos[id], s.active) {
      var s' := DoSearch(s, id);
      assert RowOk(s.db, s.passes, id);
      forall q | q in s'.searches ensures SearchOk(s', s'.searches[q]) {
        if q != s.nextSearch {
          assert SearchOk(s, s.searches[q]);
        }
      }
    }
  }

  lemma {:induction false} DispatchStepKeeps(s: State, e: Event, t: nat)
    requires Inv(s) && t in s.tasks && (e.Enqueued? || e.EnqueueFailed? || e.QueueUnreachable? || e.RolledBack?)
    ensures Inv(TaskStep(s, e, t))
  {
    var repo := s.tasks[t].repo;
    match e
    case Enqueued(_) => WithTaskKeeps(s, t, Queued(repo));
    case EnqueueFailed(_) => WithTaskKeeps(s, t, RollingBack(repo));
    case QueueUnreachable(_) => WithoutKeeps(s, t);
    case RolledBack(_) => RollbackKeeps(s, t);
  }

  lemma {:induction false} PassStepKeeps(s: State, e: Event, t: nat)
    requires Inv(s) && t in s.tasks && (e.Started? || e.Embedded? || e.Failed?)
    ensures Inv(TaskStep(s, e, t))
  {
    var repo := s.tasks[t].repo;
    match e
    case Started(_) => WithTaskKeeps(s, t, Running(repo));
    case Embedded(_, inserts) => WithTaskKeeps(s, t, Filling(repo, inserts, s.active));
    case Failed(_, message) => WithTaskKeeps(s, t, Failing(repo, message));
  }

  lemma {:induction false} TaskStepKeeps(s: State, e: Event, t: nat)
    requires Inv(s) && t in s.tasks
    ensures Inv(TaskStep(s, e, t))
  {
    if e.Enqueued? || e.EnqueueFailed? || e.QueueUnreachable? || e.RolledBack? {
      DispatchStepKeeps(s, e, t);
    } else if e.Started? || e.Embedded? || e.Failed? {
      PassStepKeeps(s, e, t);
    } else if e.Committed? && s.tasks[t].Filling? {
      CommitKeeps(s, t, e.now);
    } else if e.Recorded? && s.tasks[t].Failing? {
      RecordKeeps(s, t);
    } else if e.Crashed? {
      WithoutKeeps(s, t);
    }
  }

  lemma {:induction false} NextKeeps(s: State, e: Event)
    requires Inv(s)
    ensures Inv(Next(s, e))
  {
    if OfTask(e) {
      if e.task in s.tasks { TaskStepKeeps(s, e, e.task); }
    } else {
      match e
      case Register(source) => RegisterKeeps(s, source);
      case Delete(id) =>
        UnchangedDelete(s);
        if id in s.db.repos && !Pending(s.db.repos[id]) { DeleteKeeps(s, id); }
      case ChangeSettings(embedder) => if Named(embedder) { ChangeSettingsKeeps(s, embedder); }
      case SearchStart(id) => SearchKeeps(s, id);
      case SearchEnd(q) =>
    }
  }

  // In every run.
  lemma {:induction false} RunKeeps(active: Embedder, events: seq<Event>)
    requires Named(active)
    ensures Inv(Run(active, events))
    decreases |events|
  {
    if events != [] {
      RunKeeps(active, events[..|events| - 1]);
      NextKeeps(Run(active, events[..|events| - 1]), events[|events| - 1]);
    }
  }
}
