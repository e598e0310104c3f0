// What a client of the job stream sees, in every interleaving.

module StreamTheorems {
  import opened Chunks
  import opened JobStream

  // ---- The shape of the stream ----

  // init first and only first; complete at most once, and last.
  ghost predicate Tidy(out: seq<Frame>) {
    (out != [] ==> out[0].InitFrame?)
    && (forall i | 1 <= i < |out| :: !out[i].InitFrame?)
    && (forall i | 0 <= i < |out| - 1 :: !out[i].Complete?)
  }

  lemma {:induction false} PublishedPart(s: State, lo: nat, hi: nat)
    requires Inv(s) && lo <= hi <= |s.published|
    ensures CompleteLast(s.published[lo..hi])
    ensures hi < |s.published| ==> !HasComplete(s.published[lo..hi])
  {
    var all := s.published + FramesOf(s.todo);
    forall i | 0 <= i < hi - lo ensures s.published[lo..hi][i] == all[lo + i] {
    }
  }

  lemma {:induction false} ForwardedIsTidy(s: State)
    requires Inv(s) && s.out != [] && IsForwarded(s, |s.out|)
    ensures Tidy(s.out)
  {
    var n := |s.out|;
    var part := s.published[s.since..s.since + n - 1];
    PublishedPart(s, s.since, s.since + n - 1);
    assert s.out == [s.out[0]] + part;
  }

  lemma {:induction false} StreamIsTidy(job: Job, events: seq<Event>)
    ensures Tidy(Run(job, events).out)
  {
    var s := Run(job, events);
    assert Inv(s) by {
      RunKeeps(job, events);
    }
    if s.out != [] && IsForwarded(s, |s.out|) {
      ForwardedIsTidy(s);
    }
  }

  // After complete, nothing is ever sent.
  lemma {:induction false} NothingAfterComplete(job: Job, events: seq<Event>, more: seq<Event>)
    requires HasComplete(Run(job, events).out)
    ensures Run(job, events + more).out == Run(job, events).out
    decreases |more|
  {
    if more == [] {
      assert events + more == events;
    } else {
      var n := |more| - 1;
      NothingAfterComplete(job, events, more[..n]);
      RunSnoc(job, events + more[..n], more[n]);
      assert events + more == events + more[..n] + [more[n]];
      assert OutOk(Run(job, events + more[..n])) by {
        RunKeeps(job, events + more[..n]);
      }
    }
  }

  lemma {:induction false} RunSnoc(job: Job, events: seq<Event>, e: Event)
    ensures Run(job, events + [e]) == Next(Run(job, events), e)
  {
    assert (events + [e])[..|events|] == events;
  }

  // ---- The live path ----

  // While forwarding, what was sent after init and what is still to be taken
  // are together exactly what was published since subscribing, in order; and
  // once complete was forwarded, all of it was sent.
  lemma {:induction false} LiveIsExact(job: Job, events: seq<Event>)
    ensures
      var s := Run(job, events);
      && (s.phase.Forwarding? ==>
          s.since <= |s.published| && s.out != [] && s.out[1..] + s.inbox == s.published[s.since..])
      && (HasComplete(s.out) && s.out[0] != InitFrame(SuccessState) ==>
          s.since <= |s.published| && s.out[1..] == s.published[s.since..])
  {
    var s := Run(job, events);
    RunKeeps(job, events);
    var n := |s.out|;
    if s.phase.Forwarding? {
      assert s.published[s.since..s.since + n - 1] + s.published[s.since + n - 1..] == s.published[s.since..];
    }
    if HasComplete(s.out) && s.out[0] != InitFrame(SuccessState) {
      assert IsForwarded(s, n);
      PublishedPart(s, s.since, s.since + n - 1);
      assert n > 1 && s.out[1..][n - 2] == s.out[n - 1];
      assert s.since + n - 1 == |s.published|;
    }
  }

  // ---- Who gets to know that the job is complete ----

  // Let the handler take all that is there for it.
  function Settle(s: State): State
    decreases |s.inbox|
  {
    if s.phase.Replaying? then Next(s, Replay)
    else if s.phase.Forwarding? && s.inbox != [] then Settle(Next(s, Forward))
    else s
  }

  lemma {:induction false} SettleForwards(s: State)
    requires Inv(s) && s.phase.Forwarding?
    ensures HasComplete(Settle(s).out) <==> HasComplete(s.published[s.since..])
    decreases |s.inbox|
  {
    var n := |s.out|;
    if s.inbox == [] {
      PublishedPart(s, s.since, |s.published|);
      assert s.out[1..] == s.published[s.since..];
      if n > 1 {
        assert s.out[1..][n - 2] == s.out[n - 1];
      }
    } else {
      var s' := Next(s, Forward);
      NextKeeps(s, Forward);
      if s.inbox[0].Complete? {
        PublishedPart(s, s.since, s.since + n);
        assert s.published[s.since..s.since + n][n - 1] == s.inbox[0];
        assert s.since + n == |s.published|;
      } else {
        SettleForwards(s');
      }
    }
  }

  // With the job over, a client that got its init frame gets complete exactly
  // if its status was read after the result was stored, or complete was
  // published after it subscribed.  It misses completion only when complete
  // came before the subscription, or never, and the status before the result.
  lemma {:induction false} CompletionReachesClientIff(job: Job, events: seq<Event>)
    requires Run(job, events).phase.Replaying? || Run(job, events).phase.Forwarding?
    requires Finished(Run(job, events).status)
    ensures
      var s := Run(job, events);
      s.since <= |s.published| && s.out != []
      && (HasComplete(Settle(s).out) <==> s.out[0] == InitFrame(SuccessState) || HasComplete(s.published[s.since..]))
  {
    var s := Run(job, events);
    RunKeeps(job, events);
    if s.phase.Forwarding? {
      SettleForwards(s);
    }
  }

  // A miss is final: the client waits forever, or leaves without complete.
  ghost predicate Missed(s: State) {
    Inv(s) && Finished(s.status) && !HasComplete(s.out)
    && ((s.phase.Forwarding? && s.since <= |s.published| && !HasComplete(s.published[s.since..]))
           || s.phase.Disconnected?)
  }

  lemma {:induction false} MissIsFinal(s: State, e: Event)
    requires Missed(s)
    ensures Missed(Next(s, e))
  {
    NextKeeps(s, e);
    if e.Forward? && s.phase.Forwarding? && s.inbox != [] {
      var n := |s.out|;
      var part := s.published[s.since..s.since + n];
      PublishedPart(s, s.since, s.since + n);
      assert part[n - 1] == s.inbox[0];
      assert s.since + n == |s.published| ==> s.published[s.since..] == part;
    }
  }

  // ---- Replay and live agree ----

  // State, error and result of a complete frame.
  function Core(f: Frame): (Outcome, Option<string>, Option<string>, Option<Summary>)
    requires f.Complete?
  {
    (f.outcome, f.category, f.message, f.result)
  }

  // The complete frame the job publishes, if it does.
  function FinalFrame(job: Job): Option<Frame> {
    var acts := Acts(job);
    if acts[|acts| - 1].frame.Complete? then Some(acts[|acts| - 1].frame) else None
  }

  ghost predicate Agrees(s: State) {
    && (forall i | 0 <= i < |s.published| && s.published[i].Complete? :: FinalFrame(s.job) == Some(s.published[i]))
    && (forall i | 0 <= i < |s.todo| && s.todo[i].frame.Complete? :: FinalFrame(s.job) == Some(s.todo[i].frame))
    && (forall i | 0 <= i < |s.todo| && s.todo[i].Must? :: s.job.IndexJobRun? && s.job.indexEnd.Indexed?)
    && (!s.crashed ==> s.payload == Returned(s.job))
    && (s.crashed ==> s.payload == ExceptionPayload && s.job.IndexJobRun? && s.job.indexEnd.Indexed?)
  }

  lemma {:induction false} RunAgrees(job: Job, events: seq<Event>)
    ensures Agrees(Run(job, events)) && Run(job, events).job == job
    decreases |events|
  {
    if events == [] {
      var acts := Acts(job);
      forall i | 0 <= i < |acts|
          ensures (acts[i].frame.Complete? ==> i == |acts| - 1)
          && (acts[i].Must? ==> job.IndexJobRun? && job.indexEnd.Indexed?) {
      }
    } else {
      RunAgrees(job, events[..|events| - 1]);
      NextAgrees(Run(job, events[..|events| - 1]), events[|events| - 1]);
    }
  }

  lemma {:induction false} NextAgrees(s: State, e: Event)
    requires Agrees(s)
    ensures Agrees(Next(s, e))
  {
  }

  // Every complete frame forwarded live is the job's own.
  lemma {:induction false} LiveCompleteIsFinal(job: Job, events: seq<Event>)
    requires HasComplete(Run(job, events).out) && Run(job, events).out[0] != InitFrame(SuccessState)
    ensures FinalFrame(job) == Some(Run(job, events).out[|Run(job, events).out| - 1])
  {
    var s := Run(job, events);
    LiveIsExact(job, events);
    RunAgrees(job, events);
    var n := |s.out|;
    assert n > 1 by {
      RunKeeps(job, events);
    }
    assert s.out[n - 1] == s.out[1..][n - 2] == s.published[s.since..][n - 2];
  }

  // A replay agrees with the job's own complete frame on state, error and
  // result exactly when the stored result is still there, or the job was an
  // index pass that succeeded.
  lemma {:induction false} ReplayAgreesIff(job: Job, events: seq<Event>)
    requires Run(job, events).phase.Replaying? && FinalFrame(job).Some?
    ensures
      var s := Run(job, events);
      var out := Next(s, Replay).out;
      |out| == 2 && out[1].Complete?
      && (Core(out[1]) == Core(FinalFrame(job).value) <==>
          s.status.Stored? || (job.IndexJobRun? && job.indexEnd.Indexed?))
  {
    RunKeeps(job, events);
    RunAgrees(job, events);
  }

  // The replayed chunk count of a successful index pass is the real one unless
  // its result is gone or publishing complete had failed.
  lemma {:induction false} ReplayedChunksIff(job: Job, events: seq<Event>)
    requires Run(job, events).phase.Replaying? && job.IndexJobRun? && job.indexEnd.Indexed?
    ensures
      var s := Run(job, events);
      var out := Next(s, Replay).out;
      |out| == 2 && out[1].Complete?
      && (out[1].chunks == Some(job.indexEnd.chunkCount) <==>
          (s.status.Stored? && !s.crashed) || job.indexEnd.chunkCount == 0)
  {
    RunKeeps(job, events);
    RunAgrees(job, events);
  }

  // An index job that ends on an unexpected exception publishes no complete
  // frame, and its replay reports success.
  lemma {:induction false} CrashReplaysSuccess(job: Job, events: seq<Event>)
    requires job.IndexJobRun? && job.indexEnd.IndexSurprise?
    ensures forall i | 0 <= i < |Run(job, events).published| :: !Run(job, events).published[i].Complete?
    ensures Run(job, events).phase.Replaying?
        ==> Next(Run(job, events), Replay).out == [InitFrame(SuccessState), Ok(None, Some(0))]
  {
    RunKeeps(job, events);
    RunAgrees(job, events);
    var acts := Acts(job);
    assert FinalFrame(job) == None;
  }
}
