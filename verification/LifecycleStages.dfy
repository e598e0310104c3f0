// Each repository on its own: a small machine that every run of the whole
// system follows, whatever other repositories do.

module LifecycleStages {
  import opened Chunks
  import opened RepoStore
  import opened Lifecycle
  import opened LifecycleTheorems

  // No row; indexed; failed with a message; a pass that was given up without a
  // word; or a dispatch or job under way.
  datatype Stage = Gone | Ready | Broken(message: string) | Stuck | Busy(task: Task)

  ghost predicate NoTask(s: State, id: nat) {
    forall t | t in s.tasks :: s.tasks[t].repo != id
  }

  ghost predicate IsStage(s: State, id: nat, stage: Stage) {
    match stage
    case Gone => id !in s.db.repos
    case Ready => id in s.db.repos && NoTask(s, id) && s.db.repos[id].indexedAt.Some?
    case Broken(message) =>
      && id in s.db.repos && NoTask(s, id)
      && s.db.repos[id].indexedAt.None? && s.db.repos[id].lastError == Some(message)
    case Stuck => id in s.db.repos && NoTask(s, id) && s.db.repos[id].indexedAt.None? && s.db.repos[id].lastError.None?
    case Busy(task) => id in s.db.repos && task.repo == id && exists t :: t in s.tasks && s.tasks[t] == task
  }

  lemma {:induction false} StageExists(s: State, id: nat) returns (stage: Stage)
    ensures Inv(s) ==> IsStage(s, id, stage)
  {
    if id !in s.db.repos {
      stage := Gone;
    } else if t :| t in s.tasks && s.tasks[t].repo == id {
      stage := Busy(s.tasks[t]);
    } else if s.db.repos[id].indexedAt.Some? {
      stage := Ready;
    } else if s.db.repos[id].lastError.Some? {
      stage := Broken(s.db.repos[id].lastError.value);
    } else {
      stage := Stuck;
    }
  }

  lemma {:induction false} OneStage(s: State, id: nat, a: Stage, b: Stage)
    requires Inv(s) && IsStage(s, id, a) && IsStage(s, id, b)
    ensures a == b
  {
  }

  // What event e does to repository id at a stage: registering its source
  // starts a pass for a ready or failed one, or for a new id; deleting removes a
  // ready or failed one; its task's own events move it on; nothing else does.
  ghost function StageAfter(s: State, id: nat, stage: Stage, e: Event): Stage {
    if e.Register? then
      if ((stage.Ready? || stage.Broken?) && IsSource(s.db, id, e.source))
         || (id == s.db.nextRepo && !HasSource(s.db, e.source))
      then Busy(Dispatching(id)) else stage
    else if e.Delete? then
      if (stage.Ready? || stage.Broken?) && e.repo == id then Gone else stage
    else if OfTask(e) && e.task in s.tasks && s.tasks[e.task].repo == id && stage.Busy? then
      TaskAfter(id, stage, e, s.active)
    else stage
  }

  function TaskAfter(id: nat, stage: Stage, e: Event, active: Embedder): Stage
    requires stage.Busy?
  {
    match (stage.task, e)
    case (Dispatching(_), Enqueued(_)) => Busy(Queued(id))
    case (Dispatching(_), EnqueueFailed(_)) => Busy(RollingBack(id))
    case (Dispatching(_), QueueUnreachable(_)) => Stuck
    case (RollingBack(_), RolledBack(_)) => Gone
    case (Queued(_), Started(_)) => Busy(Running(id))
    case (Running(_), Embedded(_, inserts)) => Busy(Filling(id, inserts, active))
    case (Filling(_, _, _), Committed(_, _)) => Ready
    case (Running(_), Failed(_, message)) => Busy(Failing(id, message))
    case (Filling(_, _, _), Failed(_, message)) => Busy(Failing(id, message))
    case (Failing(_, message), Recorded(_)) => Broken(message)
    case (Queued(_), Crashed(_)) => Stuck
    case (Running(_), Crashed(_)) => Stuck
    case (Filling(_, _, _), Crashed(_)) => Stuck
    case (Failing(_, _), Crashed(_)) => Stuck
    case _ => stage
  }

  // ---- Every step of the system follows it ----

  // What is under way for repository id, and its row, are the same.
  ghost predicate SameFor(s: State, s': State, id: nat) {
    && (id in s'.db.repos <==> id in s.db.repos) && (id in s.db.repos ==> s'.db.repos[id] == s.db.repos[id])
    && (forall t | t in s.tasks && s.tasks[t].repo == id :: t in s'.tasks && s'.tasks[t] == s.tasks[t])
    && (forall t | t in s'.tasks && s'.tasks[t].repo == id :: t in s.tasks && s'.tasks[t] == s.tasks[t])
  }

  lemma {:induction false} SameStage(s: State, s': State, id: nat, stage: Stage)
    requires SameFor(s, s', id) && IsStage(s, id, stage)
    ensures IsStage(s', id, stage)
  {
  }

  lemma {:induction false} OthersElsewhere(s: State, e: Event, t: nat, id: nat)
    requires Inv(s) && OfTask(e) && e.task == t && t in s.tasks && s.tasks[t].repo == id
    ensures forall u | u in TaskStep(s, e, t).tasks && u != t :: TaskStep(s, e, t).tasks[u].repo != id
  {
    var s' := TaskStep(s, e, t);
    TasksKept(s, e, t);
    forall u | u in s'.tasks && u != t ensures s'.tasks[u].repo != id {
      assert u in s'.tasks - {t} && (s'.tasks - {t})[u] == (s.tasks - {t})[u];
    }
  }

  // A task's event that keeps it moves it on and leaves the row alone;
  lemma {:induction false} OwnTaskMoves(s: State, e: Event, t: nat, id: nat)
    requires Inv(s) && OfTask(e) && e.task == t && t in s.tasks && s.tasks[t].repo == id
    requires t in TaskStep(s, e, t).tasks
    ensures TaskAfter(id, Busy(s.tasks[t]), e, s.active) == Busy(TaskStep(s, e, t).tasks[t])
    ensures id in TaskStep(s, e, t).db.repos && TaskStep(s, e, t).tasks[t].repo == id
  {
  }

  // one that ends it leaves the row as the stage says.
  lemma {:induction false} OwnTaskEnds(s: State, e: Event, t: nat, id: nat)
    requires Inv(s) && OfTask(e) && e.task == t && t in s.tasks && s.tasks[t].repo == id
    requires t !in TaskStep(s, e, t).tasks && NoTask(TaskStep(s, e, t), id)
    ensures IsStage(TaskStep(s, e, t), id, TaskAfter(id, Busy(s.tasks[t]), e, s.active))
  {
    if e.RolledBack? {
      assert PristineDeleted(s.db, id) == Deleted(s.db, id) by {
        RollbackKeeps(s, t);
      }
    }
  }

  lemma {:induction false} OwnTaskFollows(s: State, e: Event, t: nat, id: nat)
    requires Inv(s) && OfTask(e) && e.task == t && t in s.tasks && s.tasks[t].repo == id
    ensures IsStage(TaskStep(s, e, t), id, TaskAfter(id, Busy(s.tasks[t]), e, s.active))
  {
    if t in TaskStep(s, e, t).tasks {
      OwnTaskMoves(s, e, t, id);
    } else {
      OthersElsewhere(s, e, t, id);
      OwnTaskEnds(s, e, t, id);
    }
  }

  lemma {:induction false} OtherTaskSame(s: State, e: Event, t: nat, id: nat)
    requires Inv(s) && OfTask(e) && e.task == t && t in s.tasks && s.tasks[t].repo != id
    ensures SameFor(s, TaskStep(s, e, t), id)
  {
    var s' := TaskStep(s, e, t);
    TasksKept(s, e, t);
    RowsKept(s, e, t, id);
    forall u | u in s'.tasks && u != t ensures u in s.tasks && s'.tasks[u] == s.tasks[u] {
      assert u in s'.tasks - {t} && (s'.tasks - {t})[u] == (s.tasks - {t})[u];
    }
    forall u | u in s.tasks && u != t ensures u in s'.tasks && s'.tasks[u] == s.tasks[u] {
      assert u in s.tasks - {t} && (s'.tasks - {t})[u] == (s.tasks - {t})[u];
    }
  }

  lemma {:induction false} TaskFollowsStage(s: State, e: Event, id: nat, stage: Stage)
    requires Inv(s) && IsStage(s, id, stage) && OfTask(e) && e.task in s.tasks
    ensures IsStage(TaskStep(s, e, e.task), id, StageAfter(s, id, stage, e))
  {
    if s.tasks[e.task].repo == id {
      OneStage(s, id, stage, Busy(s.tasks[e.task]));
      OwnTaskFollows(s, e, e.task, id);
    } else {
      OtherTaskSame(s, e, e.task, id);
      SameStage(s, TaskStep(s, e, e.task), id, stage);
    }
  }

  lemma {:induction false} RegisterFollowsStage(s: State, source: string, id: nat, stage: Stage)
    requires Inv(s) && IsStage(s, id, stage)
    ensures IsStage(Next(s, Register(source)), id, StageAfter(s, id, stage, Register(source)))
  {
    if UnderWay(s.db, source) {
      RefusedStage(s, source, id, stage);
    } else {
      var own := RegisterStarts(s, source);
      var s' := Next(s, Register(source));
      if own == id {
        assert s'.tasks[s.nextTask] == Dispatching(own);
        StartedStage(s, source, id, stage);
      } else {
        assert s.nextTask !in s.tasks;
        assert SameFor(s, s', id);
        SameStage(s, s', id, stage);
        assert StageAfter(s, id, stage, Register(source)) == stage;
      }
    }
  }

  lemma {:induction false} RefusedStage(s: State, source: string, id: nat, stage: Stage)
    requires Inv(s) && IsStage(s, id, stage) && UnderWay(s.db, source)
    ensures Next(s, Register(source)) == s && StageAfter(s, id, stage, Register(source)) == stage
  {
    RegisterRefusedIff(s, source);
  }

  lemma {:induction false} StartedStage(s: State, source: string, id: nat, stage: Stage)
    requires Inv(s) && IsStage(s, id, stage) && !UnderWay(s.db, source)
    requires if HasSource(s.db, source) then IsSource(s.db, id, source) else id == s.db.nextRepo
    ensures StageAfter(s, id, stage, Register(source)) == Busy(Dispatching(id))
  {
  }

  lemma {:induction false} DeleteFollowsStage(s: State, repo: nat, id: nat, stage: Stage)
    requires Inv(s) && IsStage(s, id, stage)
    ensures IsStage(Next(s, Delete(repo)), id, StageAfter(s, id, stage, Delete(repo)))
  {
    if repo != id {
      DeletedExactly(s.db, repo);
    }
  }

  // Every step of the whole system moves each repository as its own machine does.
  lemma {:induction false} StageFollows(s: State, e: Event, id: nat, stage: Stage)
    requires Inv(s) && IsStage(s, id, stage)
    ensures IsStage(Next(s, e), id, StageAfter(s, id, stage, e))
  {
    if e.Register? {
      RegisterFollowsStage(s, e.source, id, stage);
    } else if e.Delete? {
      DeleteFollowsStage(s, e.repo, id, stage);
    } else if OfTask(e) && e.task in s.tasks {
      TaskFollowsStage(s, e, id, stage);
    } else {
      SameStage(s, Next(s, e), id, stage);
    }
  }

  // What a commit leaves: the row ready since then, counting the job's rows, and
  // exactly those in the table, under the embedder they were computed with.
  lemma {:induction false} CommitStores(s: State, t: nat, now: int)
    requires Inv(s) && t in s.tasks && s.tasks[t].Filling?
    ensures
      var task, after := s.tasks[t], Next(s, Committed(t, now)).db;
      && task.repo in after.repos
      && (var row := after.repos[task.repo];
          && row.indexedAt == Some(now) && row.chunkCount == |task.inserts| && row.lastError.None?
          && row.provider == Some(task.embedder.provider) && row.model == Some(task.embedder.model))
      && forall c: CodeChunk | c.repoId == task.repo ::
           c in after.chunks <==> IsNewRow(c, s.db.nextChunk, task.repo, task.inserts, task.embedder)
  {
    ReplacedExactly(s.db, s.tasks[t].repo, s.tasks[t].inserts, s.tasks[t].embedder, now);
  }
}
