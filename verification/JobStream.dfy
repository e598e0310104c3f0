// Live progress of a background job: the worker publishes frames and its result
// is stored when it returns; a socket handler subscribes, reads the job's
// status, and then replays the stored result or forwards what is published.

module JobStream {
  import opened Chunks

  // ---- Frames, results and the jobs that produce them ----

  datatype Outcome = Success | Failure
  datatype JobState = QueuedState | RunningState | SuccessState

  // What a review hands back: run id, verdict and number of findings.
  datatype Summary = Summary(runId: string, verdict: string, findingCount: nat)

  // `chunks` is None where the frame has no such key.
  datatype Frame =
    | InitFrame(state: JobState)
    | Progress(text: string)
    | Complete(outcome: Outcome, category: Option<string>, message: Option<string>, result: Option<Summary>,
               chunks: Option<nat>)

  // The stored return value of a job; any exception of the job is stored as
  // something that is not a dictionary.
  datatype Payload =
    | ReviewPayload(summary: Summary)
    | IndexPayload(chunkCount: nat)
    | ErrorPayload(category: string, message: string)
    | ExceptionPayload

  // Publishing: a failure is logged and ignored, or ends the job.
  datatype Act = Try(frame: Frame) | Must(frame: Frame)

  datatype ReviewEnd =
    | BadRepoId
    | NoInput
    | Reviewed(summary: Summary)
    | ReviewFailed(category: string, message: string)
    | ReviewSurprise

  datatype IndexEnd = Indexed(chunkCount: nat) | IndexFailed(category: string, message: string) | IndexSurprise

  // A job, the progress it reports on the way, and how it ends.
  datatype Job =
    | ReviewJobRun(stages: seq<string>, reviewEnd: ReviewEnd)
    | IndexJobRun(progress: seq<string>, indexEnd: IndexEnd)

  const INVALID_INPUT := "invalid_input"
  const BAD_REPO_ID := "Field 'repo_id' is not a valid UUID."
  const NO_INPUT := "Either 'diff' or 'pr_url' is required."
  const INTERNAL := "internal"
  const UNEXPECTED := "Unexpected server error."

  function Ok(result: Option<Summary>, chunks: Option<nat>): Frame {
    Complete(Success, None, None, result, chunks)
  }

  function Bad(category: string, message: string, chunks: Option<nat>): Frame {
    Complete(Failure, Some(category), Some(message), None, chunks)
  }

  // ---- The two workers ----

  // The frames a worker publishes, in order; none without a job id or a client.
  class Channel {
    const open: bool
    var acts: seq<Act>

    constructor (open: bool)
      ensures this.open == open && acts == []
    {
      this.open, acts := open, [];
    }

    method Publish(frame: Frame)
      modifies this
      ensures acts == old(acts) + Sent(open, [Try(frame)])
    {
      if open {
        acts := acts + [Try(frame)];
      }
    }

    // Not inside a try block of its own.
    method PublishOrRaise(frame: Frame)
      modifies this
      ensures acts == old(acts) + Sent(open, [Must(frame)])
    {
      if open {
        acts := acts + [Must(frame)];
      }
    }

    method PublishAll(texts: seq<string>)
      modifies this
      ensures acts == old(acts) + Sent(open, ProgressActs(texts))
    {
      for i := 0 to |texts|
        invariant acts == old(acts) + Sent(open, ProgressActs(texts[..i]))
      {
        Publish(Progress(texts[i]));
        assert ProgressActs(texts[..i + 1]) == ProgressActs(texts[..i]) + [Try(Progress(texts[i]))];
      }
      assert texts[..|texts|] == texts;
    }
  }

  function Sent(open: bool, acts: seq<Act>): seq<Act> {
    if open then acts else []
  }

  function ProgressActs(texts: seq<string>): seq<Act> {
    seq(|texts|, i requires 0 <= i < |texts| => Try(Progress(texts[i])))
  }

  // What a job publishes and returns.
  function Acts(job: Job): seq<Act> {
    match job
    case ReviewJobRun(_, BadRepoId) => [Try(Bad(INVALID_INPUT, BAD_REPO_ID, None))]
    case ReviewJobRun(_, NoInput) => [Try(Progress("queued")), Try(Bad(INVALID_INPUT, NO_INPUT, None))]
    case ReviewJobRun(stages, Reviewed(summary)) =>
      [Try(Progress("queued"))] + ProgressActs(stages) + [Try(Ok(Some(summary), None))]
    case ReviewJobRun(stages, ReviewFailed(c, m)) =>
      [Try(Progress("queued"))] + ProgressActs(stages) + [Try(Bad(c, m, None))]
    case ReviewJobRun(stages, ReviewSurprise) =>
      [Try(Progress("queued"))] + ProgressActs(stages) + [Try(Bad(INTERNAL, UNEXPECTED, None))]
    case IndexJobRun(progress, Indexed(n)) => [Try(Progress("0"))] + ProgressActs(progress) + [Must(Ok(None, Some(n)))]
    case IndexJobRun(progress, IndexFailed(c, m)) =>
      [Try(Progress("0"))] + ProgressActs(progress) + [Try(Bad(c, m, Some(0)))]
    case IndexJobRun(progress, IndexSurprise) => [Try(Progress("0"))] + ProgressActs(progress)
  }

  function Returned(job: Job): Payload {
    match job
    case ReviewJobRun(_, BadRepoId) => ErrorPayload(INVALID_INPUT, BAD_REPO_ID)
    case ReviewJobRun(_, NoInput) => ErrorPayload(INVALID_INPUT, NO_INPUT)
    case ReviewJobRun(_, Reviewed(summary)) => ReviewPayload(summary)
    case ReviewJobRun(_, ReviewFailed(c, m)) => ErrorPayload(c, m)
    case ReviewJobRun(_, ReviewSurprise) => ErrorPayload(INTERNAL, UNEXPECTED)
    case IndexJobRun(_, Indexed(n)) => IndexPayload(n)
    case IndexJobRun(_, IndexFailed(c, m)) => ErrorPayload(c, m)
    case IndexJobRun(_, IndexSurprise) => ExceptionPayload
  }

  // What the review pipeline does: the stages it reports, then a result or an exception.
  datatype Pipeline = Pipeline(stages: seq<string>, ending: PipelineEnd)
  datatype PipelineEnd = Result(summary: Summary) | ReviewError(category: string, message: string) | OtherException

  function ReviewRunOf(repoIdOk: bool, hasInput: bool, p: Pipeline): Job {
    if !repoIdOk then ReviewJobRun([], BadRepoId)
    else if !hasInput then ReviewJobRun([], NoInput)
    else
      match p.ending
      case Result(s) => ReviewJobRun(p.stages, Reviewed(s))
      case ReviewError(c, m) => ReviewJobRun(p.stages, ReviewFailed(c, m))
      case OtherException => ReviewJobRun(p.stages, ReviewSurprise)
  }

  // `repoIdOk`: no repo_id, or a valid UUID; `hasInput`: a diff or a pr_url.
  method ReviewJob(channel: Channel, repoIdOk: bool, hasInput: bool, p: Pipeline) returns (payload: Payload)
    modifies channel
    ensures channel.open ==> channel.acts == old(channel.acts) + Acts(ReviewRunOf(repoIdOk, hasInput, p))
    ensures !channel.open ==> channel.acts == old(channel.acts)
    ensures payload == Returned(ReviewRunOf(repoIdOk, hasInput, p))
  {
    if !repoIdOk {
      channel.Publish(Bad(INVALID_INPUT, BAD_REPO_ID, None));
      return ErrorPayload(INVALID_INPUT, BAD_REPO_ID);
    }
    channel.Publish(Progress("queued"));
    if !hasInput {
      channel.Publish(Bad(INVALID_INPUT, NO_INPUT, None));
      return ErrorPayload(INVALID_INPUT, NO_INPUT);
    }
    channel.PublishAll(p.stages);
    ghost var sofar := [Try(Progress("queued"))] + ProgressActs(p.stages);
    assert channel.acts == old(channel.acts) + Sent(channel.open, sofar);
    match p.ending {
      case ReviewError(category, message) =>
        channel.Publish(Bad(category, message, None));
        return ErrorPayload(category, message);
      case OtherException =>
        channel.Publish(Bad(INTERNAL, UNEXPECTED, None));
        return ErrorPayload(INTERNAL, UNEXPECTED);
      case Result(summary) =>
        channel.Publish(Ok(Some(summary), None));
        return ReviewPayload(summary);
    }
  }

  method IndexRepoJob(channel: Channel, progress: seq<string>, ending: IndexEnd) returns (payload: Payload)
    modifies channel
    ensures channel.open ==> channel.acts == old(channel.acts) + Acts(IndexJobRun(progress, ending))
    ensures !channel.open ==> channel.acts == old(channel.acts)
    ensures payload == Returned(IndexJobRun(progress, ending))
  {
    channel.Publish(Progress("0"));
    channel.PublishAll(progress);
    ghost var sofar := [Try(Progress("0"))] + ProgressActs(progress);
    assert channel.acts == old(channel.acts) + Sent(channel.open, sofar);
    match ending {
      case Indexed(chunkCount) =>
        channel.PublishOrRaise(Ok(None, Some(chunkCount)));
        return IndexPayload(chunkCount);
      case IndexFailed(category, message) =>
        channel.Publish(Bad(category, message, Some(0)));
        return ErrorPayload(category, message);
      case IndexSurprise =>
        return ExceptionPayload;
    }
  }

  // ---- The handler's replay ----

  // The complete frame built from the stored result; None is a result that is gone.
  function ReplayFrame(payload: Option<Payload>): Frame {
    match payload
    case Some(ErrorPayload(c, m)) => Bad(c, m, Some(0))
    case Some(ReviewPayload(s)) => Ok(Some(s), Some(0))
    case Some(IndexPayload(n)) => Ok(None, Some(n))
    case _ => Ok(None, Some(0))
  }

  // ---- Worker, result store and one handler together ----

  // As the job queue reports it.
  datatype Status = Queued | InProgress | Stored(payload: Payload) | NotFound

  datatype Phase =
    | Connecting
    | Subscribed
    | StatusRead(status: Status)
    | Replaying
    | Forwarding
    | Closed(code: nat)
    | Disconnected

  // `published` is all that reached the channel, `inbox` what the subscription
  // has delivered and the handler not yet taken, `out` what the client was
  // sent.  `since` records how much was published before the subscription, and
  // `crashed` that publishing the complete frame ended the job.
  datatype State = State(job: Job, status: Status, todo: seq<Act>, payload: Payload, crashed: bool,
                         published: seq<Frame>, phase: Phase, since: nat, inbox: seq<Frame>, out: seq<Frame>)

  datatype Event =
    | Start             // the worker picks the job up
    | Publish           // the next frame reaches the channel
    | PublishFails      // publishing the next frame raises
    | Return            // the job returns; its result is stored, atomically with its status
    | Expire            // the stored result's time is up
    | Subscribe
    | SubscribeFails
    | ReadStatus
    | ReadStatusFails
    | SendInit
    | Replay
    | Forward
    | ClientLeaves

  function Init(job: Job): State {
    State(job, Queued, Acts(job), Returned(job), false, [], Connecting, 0, [], [])
  }

  predicate Listening(p: Phase) {
    p.Subscribed? || p.StatusRead? || p.Replaying? || p.Forwarding?
  }

  function MapState(status: Status): JobState {
    match status
    case InProgress => RunningState
    case Stored(_) => SuccessState
    case _ => QueuedState
  }

  function Next(s: State, e: Event): State {
    match e
    case Start => if s.status.Queued? then s.(status := InProgress) else s
    case Publish =>
      if s.status.InProgress? && s.todo != [] then
        s.(published := s.published + [s.todo[0].frame], todo := s.todo[1..],
           inbox := if Listening(s.phase) then s.inbox + [s.todo[0].frame] else s.inbox)
      else s
    case PublishFails =>
      if s.status.InProgress? && s.todo != [] then
        if s.todo[0].Try? then s.(todo := s.todo[1..])
        else s.(todo := [], payload := ExceptionPayload, crashed := true)
      else s
    case Return => if s.status.InProgress? && s.todo == [] then s.(status := Stored(s.payload)) else s
    case Expire => if s.status.Stored? then s.(status := NotFound) else s
    case Subscribe => if s.phase.Connecting? then s.(phase := Subscribed, since := |s.published|, inbox := []) else s
    case SubscribeFails => if s.phase.Connecting? then s.(phase := Closed(1011)) else s
    case ReadStatus =>
      if s.phase.Subscribed? then s.(phase := if s.status.NotFound? then Closed(4404) else StatusRead(s.status)) else s
    case ReadStatusFails => if s.phase.Subscribed? then s.(phase := Closed(1011)) else s
    case SendInit =>
      if s.phase.StatusRead? then
        s.(out := s.out + [InitFrame(MapState(s.phase.status))],
           phase := if s.phase.status.Stored? then Replaying else Forwarding)
      else s
    case Replay =>
      if s.phase.Replaying? then
        s.(out := s.out + [ReplayFrame(if s.status.Stored? then Some(s.status.payload) else None)],
           phase := Closed(1000))
      else s
    case Forward =>
      if s.phase.Forwarding? && s.inbox != [] then
        s.(out := s.out + [s.inbox[0]], inbox := s.inbox[1..],
           phase := if s.inbox[0].Complete? then Closed(1000) else s.phase)
      else s
    case ClientLeaves => if s.phase.Closed? then s else s.(phase := Disconnected)
  }

  // Any interleaving; an event that is not possible changes nothing.
  function Run(job: Job, events: seq<Event>): State {
    if events == [] then Init(job) else Next(Run(job, events[..|events| - 1]), events[|events| - 1])
  }

  // ---- The invariant ----

  predicate Finished(status: Status) {
    status.Stored? || status.NotFound?
  }

  // Frames of a job: no init, and complete only as the last.
  ghost predicate CompleteLast(frames: seq<Frame>) {
    (forall i | 0 <= i < |frames| :: !frames[i].InitFrame?) && forall i | 0 <= i < |frames| - 1 :: !frames[i].Complete?
  }

  function FramesOf(acts: seq<Act>): seq<Frame> {
    seq(|acts|, i requires 0 <= i < |acts| => acts[i].frame)
  }

  predicate HasComplete(frames: seq<Frame>) {
    frames != [] && frames[|frames| - 1].Complete?
  }

  ghost predicate WorkerOk(s: State) {
    && CompleteLast(s.published + FramesOf(s.todo))
    && (Finished(s.status) ==> s.todo == [])
    && (s.status.Stored? ==> s.status.payload == s.payload)
  }

  // What the client has been sent so far.
  ghost predicate OutOk(s: State) {
    match s.phase
    case Connecting => s.out == []
    case Subscribed => s.out == []
    case StatusRead(st) => s.out == [] && !st.NotFound? && (st.Stored? ==> Finished(s.status))
    case Replaying => s.out == [InitFrame(SuccessState)] && Finished(s.status)
    case Forwarding => IsForwarded(s, |s.out|) && !HasComplete(s.out)
    case Closed(_) => s.out == [] || IsReplayed(s) || (IsForwarded(s, |s.out|) && HasComplete(s.out))
    case Disconnected => s.out == [] || s.out == [InitFrame(SuccessState)] || IsForwarded(s, |s.out|)
  }

  // init, then a first part of what was published since subscribing
  ghost predicate IsForwarded(s: State, n: nat) {
    && n == |s.out| >= 1 && s.out[0].InitFrame? && !s.out[0].state.SuccessState?
    && s.since + n - 1 <= |s.published| && s.out[1..] == s.published[s.since..s.since + n - 1]
  }

  // init, then the stored result
  ghost predicate IsReplayed(s: State) {
    Finished(s.status) && (s.out == [InitFrame(SuccessState), ReplayFrame(Some(s.payload))]
                           || (s.status.NotFound? && s.out == [InitFrame(SuccessState), ReplayFrame(None)]))
  }

  // The subscription has lost nothing.
  ghost predicate InboxOk(s: State) {
    Listening(s.phase) ==>
      var taken := if s.phase.Forwarding? then |s.out| - 1 else 0;
      taken >= 0 && s.since + taken <= |s.published| && s.inbox == s.published[s.since + taken..]
  }

  ghost predicate Inv(s: State) {
    WorkerOk(s) && OutOk(s) && InboxOk(s)
  }

  lemma {:induction false} ActsCompleteLast(job: Job)
    ensures CompleteLast(FramesOf(Acts(job)))
  {
    var fs := FramesOf(Acts(job));
    forall i | 0 <= i < |fs| ensures !fs[i].InitFrame? && (i < |fs| - 1 ==> !fs[i].Complete?) {
    }
  }

  lemma {:induction false} PublishKeeps(s: State)
    requires Inv(s)
    ensures Inv(Next(s, Publish))
  {
    if s.status.InProgress? && s.todo != [] {
      var s', f := Next(s, Publish), s.todo[0].frame;
      assert s'.published + FramesOf(s'.todo) == s.published + FramesOf(s.todo);
      if s.out != [] && s.since + |s.out| - 1 <= |s.published| {
        assert s'.published[s.since..s.since + |s.out| - 1] == s.published[s.since..s.since + |s.out| - 1];
      }
      if Listening(s.phase) {
        var taken := if s.phase.Forwarding? then |s.out| - 1 else 0;
        assert s'.published[s.since + taken..] == s.published[s.since + taken..] + [f];
      }
    }
  }

  lemma {:induction false} DropFrame(before: seq<Frame>, after: seq<Frame>, n: nat)
    requires CompleteLast(before) && n < |before|
    requires after == before[..n] || after == before[..n] + before[n + 1..]
    ensures CompleteLast(after)
  {
    forall i | 0 <= i < |after| ensures !after[i].InitFrame? && (i < |after| - 1 ==> !after[i].Complete?) {
      assert after[i] == before[if i < n then i else i + 1];
    }
  }

  lemma {:induction false} PublishFailsKeeps(s: State)
    requires Inv(s)
    ensures Inv(Next(s, PublishFails))
  {
    if s.status.InProgress? && s.todo != [] {
      var s' := Next(s, PublishFails);
      var before, after, n := s.published + FramesOf(s.todo), s'.published + FramesOf(s'.todo), |s.published|;
      if s.todo[0].Try? {
        assert after == before[..n] + before[n + 1..];
      } else {
        assert after == before[..n];
      }
      DropFrame(before, after, n);
    }
  }

  lemma {:induction false} ForwardKeeps(s: State)
    requires Inv(s)
    ensures Inv(Next(s, Forward))
  {
    if s.phase.Forwarding? && s.inbox != [] {
      var s' := Next(s, Forward);
      var n := |s.out|;
      assert s'.out[1..] == s.out[1..] + [s.inbox[0]];
      assert s.published[s.since..s.since + n]
          == s.published[s.since..s.since + n - 1] + [s.published[s.since + n - 1]];
      assert IsForwarded(s', n + 1);
    }
  }

  lemma {:induction false} SendInitKeeps(s: State)
    requires Inv(s)
    ensures Inv(Next(s, SendInit))
  {
    if s.phase.StatusRead? && !s.phase.status.Stored? {
      assert Next(s, SendInit).out[1..] == [];
    }
  }

  lemma {:induction false} StartKeeps(s: State)
    requires Inv(s)
    ensures Inv(Next(s, Start))
  {
  }

  lemma {:induction false} ReturnKeeps(s: State)
    requires Inv(s)
    ensures Inv(Next(s, Return))
  {
  }

  lemma {:induction false} ExpireKeeps(s: State)
    requires Inv(s)
    ensures Inv(Next(s, Expire))
  {
  }

  lemma {:induction false} ConnectionKeeps(s: State, e: Event)
    requires Inv(s) && (e.Subscribe? || e.SubscribeFails? || e.ReadStatus? || e.ReadStatusFails? || e.ClientLeaves?)
    ensures Inv(Next(s, e))
  {
  }

  lemma {:induction false} ReplayKeeps(s: State)
    requires Inv(s)
    ensures Inv(Next(s, Replay))
  {
  }

  lemma {:induction false} NextKeeps(s: State, e: Event)
    requires Inv(s)
    ensures Inv(Next(s, e))
  {
    match e
    case Publish => PublishKeeps(s);
    case PublishFails => PublishFailsKeeps(s);
    case Forward => ForwardKeeps(s);
    case SendInit => SendInitKeeps(s);
    case Replay => ReplayKeeps(s);
    case Start => StartKeeps(s);
    case Return => ReturnKeeps(s);
    case Expire => ExpireKeeps(s);
    case _ => ConnectionKeeps(s, e);
  }

  lemma {:induction false} RunKeeps(job: Job, events: seq<Event>)
    ensures Inv(Run(job, events)) && Run(job, events).job == job
    decreases |events|
  {
    if events == [] {
      ActsCompleteLast(job);
      assert [] + FramesOf(Acts(job)) == FramesOf(Acts(job));
    } else {
      RunKeeps(job, events[..|events| - 1]);
      NextKeeps(Run(job, events[..|events| - 1]), events[|events| - 1]);
    }
  }
}
