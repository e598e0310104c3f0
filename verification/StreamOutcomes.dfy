// What the frames of a job stream say about the job, live and replayed.

module StreamOutcomes {
  import opened Chunks
  import opened JobStream
  import opened StreamTheorems

  // ---- How a job ends ----

  // The category and message of the error the job ends with, if it does.
  function ErrorOf(job: Job): Option<(string, string)> {
    match job
    case ReviewJobRun(_, BadRepoId) => Some(("invalid_input", "Field 'repo_id' is not a valid UUID."))
    case ReviewJobRun(_, NoInput) => Some(("invalid_input", "Either 'diff' or 'pr_url' is required."))
    case ReviewJobRun(_, ReviewFailed(category, message)) => Some((category, message))
    case ReviewJobRun(_, ReviewSurprise) => Some(("internal", "Unexpected server error."))
    case IndexJobRun(_, IndexFailed(category, message)) => Some((category, message))
    case _ => None
  }

  predicate Succeeds(job: Job) {
    (job.ReviewJobRun? && job.reviewEnd.Reviewed?) || (job.IndexJobRun? && job.indexEnd.Indexed?)
  }

  // A review's end: an invalid repo_id goes before missing input, and both
  // before what the pipeline does.
  lemma {:induction false} ReviewEndsAs(repoIdOk: bool, hasInput: bool, p: Pipeline)
    ensures
      var job := ReviewRunOf(repoIdOk, hasInput, p);
      && job.ReviewJobRun?
      && (job.reviewEnd.BadRepoId? <==> !repoIdOk)
      && (job.reviewEnd.NoInput? <==> repoIdOk && !hasInput)
      && (repoIdOk && hasInput ==>
            && job.stages == p.stages
            && (forall s :: job.reviewEnd == Reviewed(s) <==> p.ending == Result(s))
            && (forall c, m :: job.reviewEnd == ReviewFailed(c, m) <==> p.ending == ReviewError(c, m))
            && (job.reviewEnd.ReviewSurprise? <==> p.ending.OtherException?))
  {
  }

  // What a job returns: its result, its error, or an exception.
  ghost predicate PayloadTells(job: Job, payload: Payload) {
    && (payload.ReviewPayload? <==> job.ReviewJobRun? && job.reviewEnd.Reviewed?)
    && (payload.ReviewPayload? ==> payload.summary == job.reviewEnd.summary)
    && (payload.IndexPayload? <==> job.IndexJobRun? && job.indexEnd.Indexed?)
    && (payload.IndexPayload? ==> payload.chunkCount == job.indexEnd.chunkCount)
    && (payload.ErrorPayload? <==> ErrorOf(job).Some?)
    && (payload.ErrorPayload? ==> (payload.category, payload.message) == ErrorOf(job).value)
    && (payload.ExceptionPayload? <==> job.IndexJobRun? && job.indexEnd.IndexSurprise?)
  }

  lemma {:induction false} ReturnedTells(job: Job)
    ensures PayloadTells(job, Returned(job))
  {
  }

  // ---- What a job publishes ----

  // Success exactly for a job that succeeds, with its result or chunk count; a
  // failure with the job's error.
  ghost predicate FrameTells(job: Job, f: Frame) {
    && f.Complete?
    && (f.outcome == Success <==> Succeeds(job)) && (f.outcome == Failure <==> ErrorOf(job).Some?)
    && (if ErrorOf(job).Some? then
          f.category == Some(ErrorOf(job).value.0) && f.message == Some(ErrorOf(job).value.1)
        else f.category.None? && f.message.None?)
    && f.result == (if job.ReviewJobRun? && job.reviewEnd.Reviewed? then Some(job.reviewEnd.summary) else None)
    && f.chunks == (if job.ReviewJobRun? then None
                    else if job.indexEnd.Indexed? then Some(job.indexEnd.chunkCount)
                    else Some(0))
  }

  // The progress a job reports: that it was picked up, then its stages, unless
  // it ends before.
  function Reported(job: Job): seq<string> {
    match job
    case ReviewJobRun(_, BadRepoId) => []
    case ReviewJobRun(_, NoInput) => ["queued"]
    case ReviewJobRun(stages, _) => ["queued"] + stages
    case IndexJobRun(progress, _) => ["0"] + progress
  }

  // Its progress in order, then a complete frame that tells how it ended,
  // unless an index pass ends on an unexpected exception.  Only the complete
  // frame of a successful index pass is published where a failure is not caught.
  lemma {:induction false} ActsTell(job: Job)
    ensures
      var acts, n := Acts(job), |Reported(job)|;
      && (forall i | 0 <= i < n :: i < |acts| && acts[i] == Try(Progress(Reported(job)[i])))
      && (if job.IndexJobRun? && job.indexEnd.IndexSurprise? then |acts| == n
          else
            && |acts| == n + 1 && FrameTells(job, acts[n].frame)
            && (acts[n].Must? <==> job.IndexJobRun? && job.indexEnd.Indexed?))
  {
  }

  // A complete frame that a client gets live tells how the job ended.
  lemma {:induction false} LiveTells(job: Job, events: seq<Event>)
    requires HasComplete(Run(job, events).out) && Run(job, events).out[0] != InitFrame(SuccessState)
    ensures FrameTells(job, Run(job, events).out[|Run(job, events).out| - 1])
  {
    LiveCompleteIsFinal(job, events);
    ActsTell(job);
  }

  // ---- What a replay says ----

  // Failure exactly while the result of a job that ended with an error is
  // stored, with that error; otherwise success, with the result or chunk count
  // while it is stored.  A failure to publish complete loses the chunk count.
  ghost predicate ReplayTells(s: State, f: Frame) {
    var error := if s.status.Stored? then ErrorOf(s.job) else None;
    && f.Complete?
    && (f.outcome == Failure <==> error.Some?) && (f.outcome == Success <==> error.None?)
    && (if error.Some? then f.category == Some(error.value.0) && f.message == Some(error.value.1)
        else f.category.None? && f.message.None?)
    && f.result == (if s.status.Stored? && s.job.ReviewJobRun? && s.job.reviewEnd.Reviewed?
                    then Some(s.job.reviewEnd.summary) else None)
    && f.chunks == (if s.status.Stored? && !s.crashed && s.job.IndexJobRun? && s.job.indexEnd.Indexed?
                    then Some(s.job.indexEnd.chunkCount) else Some(0))
  }

  lemma {:induction false} ReplayedTells(job: Job, events: seq<Event>)
    requires Run(job, events).phase.Replaying?
    ensures
      var s := Run(job, events);
      s.job == job && |Next(s, Replay).out| == 2 && ReplayTells(s, Next(s, Replay).out[1])
  {
    RunKeeps(job, events);
    RunAgrees(job, events);
    ReturnedTells(job);
  }

  // ---- What else a client sees ----

  // The init frame names the state that was read.
  lemma {:induction false} InitTells(job: Job, events: seq<Event>)
    requires Run(job, events).phase.StatusRead?
    ensures
      var s := Run(job, events);
      var out, read := Next(s, SendInit).out, s.phase.status;
      && |out| == 1 && out[0].InitFrame?
      && (out[0].state == SuccessState <==> read.Stored?) && (out[0].state == RunningState <==> read.InProgress?)
      && (out[0].state == QueuedState <==> read.Queued?)
  {
    RunKeeps(job, events);
  }

  // A connection is closed normally exactly when complete was sent last, and
  // before anything was sent for an unknown job or a failure of the server.
  ghost predicate ClosedRight(s: State) {
    s.phase.Closed? ==>
      && s.phase.code in {1000, 1011, 4404}
      && (s.phase.code == 1000 <==> HasComplete(s.out))
      && (s.phase.code != 1000 ==> s.out == [])
  }

  lemma {:induction false} ClosingIsRight(job: Job, events: seq<Event>)
    ensures ClosedRight(Run(job, events))
    decreases |events|
  {
    if events != [] {
      var before := events[..|events| - 1];
      ClosingIsRight(job, before);
      RunKeeps(job, before);
      ClosesRight(Run(job, before), events[|events| - 1]);
    }
  }

  lemma {:induction false} ClosesRight(s: State, e: Event)
    requires Inv(s) && ClosedRight(s)
    ensures ClosedRight(Next(s, e))
  {
  }

  // 4404 means that the queue does not know the job when its status is read.
  lemma {:induction false} UnknownJobCloses(s: State)
    requires s.phase.Subscribed?
    ensures Next(s, ReadStatus).phase == Closed(4404) <==> s.status.NotFound?
    ensures !s.status.NotFound? ==> Next(s, ReadStatus).phase == StatusRead(s.status)
  {
  }

  // A frame that cannot be published is lost and the job goes on, unless it is
  // the complete frame of a successful index pass, which ends the job.
  lemma {:induction false} FailedPublishTells(job: Job, events: seq<Event>)
    requires Run(job, events).status.InProgress? && Run(job, events).todo != []
    ensures
      var s := Run(job, events);
      var s' := Next(s, PublishFails);
      && s'.published == s.published && s'.status == s.status
      && (if s.todo[0].Must? then s'.todo == [] && s'.crashed && s'.payload == ExceptionPayload && Succeeds(job)
          else s'.todo == s.todo[1..] && s'.crashed == s.crashed && s'.payload == s.payload)
  {
    RunAgrees(job, events);
  }

  // ---- Both paths are there ----

  lemma {:induction false} StepOf(job: Job, events: seq<Event>, s: State, e: Event, s': State)
    returns (more: seq<Event>)
    requires Run(job, events) == s && Next(s, e) == s'
    ensures Run(job, more) == s'
  {
    more := events + [e];
    RunSnoc(job, events, e);
  }

  // The client is connected before the job starts, and has got its first k frames.
  ghost function Live(job: Job, k: nat): State
    requires k <= |Acts(job)|
  {
    var frames := FramesOf(Acts(job));
    State(job, InProgress, Acts(job)[k..], Returned(job), false, frames[..k],
          if k > 0 && frames[k - 1].Complete? then Closed(1000) else Forwarding, 0, [],
          [InitFrame(QueuedState)] + frames[..k])
  }

  lemma {:induction false} LiveStart(job: Job) returns (events: seq<Event>)
    ensures Run(job, events) == Live(job, 0)
  {
    var s1 := Init(job).(phase := Subscribed);
    var s2 := s1.(phase := StatusRead(Status.Queued));
    var s3 := s1.(phase := Forwarding, out := [InitFrame(QueuedState)]);
    events := StepOf(job, [], Init(job), Subscribe, s1);
    events := StepOf(job, events, s1, ReadStatus, s2);
    events := StepOf(job, events, s2, SendInit, s3);
    assert Acts(job)[0..] == Acts(job) && FramesOf(Acts(job))[..0] == [];
    events := StepOf(job, events, s3, Start, Live(job, 0));
  }

  lemma {:induction false} LiveStep(job: Job, k: nat)
    requires 0 < k <= |Acts(job)|
    ensures Next(Next(Live(job, k - 1), Publish), Forward) == Live(job, k)
  {
    var acts, frames := Acts(job), FramesOf(Acts(job));
    var sent, f := [InitFrame(QueuedState)] + frames[..k - 1], frames[k - 1];
    ActsCompleteLast(job);
    assert acts[k - 1..][1..] == acts[k..] && frames[..k] == frames[..k - 1] + [f];
    assert sent + [f] == [InitFrame(QueuedState)] + frames[..k];
    assert Live(job, k - 1).phase == Forwarding;
    assert Next(Live(job, k - 1), Publish)
        == Live(job, k - 1).(todo := acts[k..], published := frames[..k], inbox := [f]);
  }

  // Every job can be followed live from its first frame to its last.
  lemma {:induction false} LiveRun(job: Job, k: nat) returns (events: seq<Event>)
    requires k <= |Acts(job)|
    ensures Run(job, events) == Live(job, k)
  {
    if k == 0 {
      events := LiveStart(job);
    } else {
      events := LiveRun(job, k - 1);
      LiveStep(job, k);
      events := StepOf(job, events, Live(job, k - 1), Publish, Next(Live(job, k - 1), Publish));
      events := StepOf(job, events, Next(Live(job, k - 1), Publish), Forward, Live(job, k));
    }
  }

  // The job has published its first k frames, and nobody has connected yet.
  ghost function Unheard(job: Job, k: nat): State
    requires k <= |Acts(job)|
  {
    Init(job).(status := InProgress, todo := Acts(job)[k..], published := FramesOf(Acts(job))[..k])
  }

  lemma {:induction false} UnheardRun(job: Job, k: nat) returns (events: seq<Event>)
    requires k <= |Acts(job)|
    ensures Run(job, events) == Unheard(job, k)
  {
    var acts, frames := Acts(job), FramesOf(Acts(job));
    if k == 0 {
      assert acts[0..] == acts && frames[..0] == [];
      events := StepOf(job, [], Init(job), Start, Unheard(job, 0));
    } else {
      events := UnheardRun(job, k - 1);
      assert acts[k - 1..][1..] == acts[k..] && frames[..k] == frames[..k - 1] + [frames[k - 1]];
      events := StepOf(job, events, Unheard(job, k - 1), Publish, Unheard(job, k));
    }
  }

  // Every job can be over, with its result stored, when a client connects,
  // which then gets the replay.
  lemma {:induction false} ReplayRun(job: Job) returns (events: seq<Event>)
    ensures Run(job, events).phase.Replaying? && Run(job, events).status == Stored(Returned(job))
    ensures Run(job, events).published == FramesOf(Acts(job))
  {
    var frames, n := FramesOf(Acts(job)), |Acts(job)|;
    events := UnheardRun(job, n);
    assert frames[..n] == frames && Acts(job)[n..] == [];
    var s1 := Unheard(job, n).(status := Stored(Returned(job)));
    events := StepOf(job, events, Unheard(job, n), Return, s1);
    var s2 := s1.(phase := Subscribed, since := n);
    events := StepOf(job, events, s1, Subscribe, s2);
    var s3 := s2.(phase := StatusRead(s1.status));
    events := StepOf(job, events, s2, ReadStatus, s3);
    events := StepOf(job, events, s3, SendInit, s3.(phase := Replaying, out := [InitFrame(SuccessState)]));
  }
}
