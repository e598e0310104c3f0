// What pruning keeps, and that nobody sees it.

module HistoryTheorems {
  import opened Chunks
  import opened History

  ghost predicate DistinctTimes(runs: set<ReviewRun>) {
    forall a, b | a in runs && b in runs && a.createdAt == b.createdAt :: a == b
  }

  function Newer(runs: set<ReviewRun>, r: ReviewRun): set<ReviewRun> {
    set x | x in runs && x.createdAt > r.createdAt
  }

  function Older(runs: set<ReviewRun>, r: ReviewRun): set<ReviewRun> {
    set x | x in runs && x.createdAt < r.createdAt
  }

  // ---- What is left ----

  // With distinct times, pruning leaves exactly the runs with fewer than a
  // thousand newer ones: the newest thousand, or all if there are fewer.
  lemma {:induction false} PruneKeepsNewest(runs: set<ReviewRun>, picked: set<ReviewRun>)
    requires DistinctTimes(runs) && OldestRows(runs, Overflow(runs), picked)
    ensures runs - picked == set r | r in runs && |Newer(runs, r)| < HISTORY_MAX_ROWS
    ensures |runs - picked| == if |runs| <= HISTORY_MAX_ROWS then |runs| else HISTORY_MAX_ROWS
  {
    RestSize(runs, picked);
    forall r | r in runs ensures r in runs - picked <==> |Newer(runs, r)| < HISTORY_MAX_ROWS {
      NewerThanKept(runs, picked, r);
    }
  }

  lemma {:induction false} NewerThanKept(runs: set<ReviewRun>, picked: set<ReviewRun>, r: ReviewRun)
    requires DistinctTimes(runs) && OldestRows(runs, Overflow(runs), picked) && r in runs
    requires |runs - picked| == |runs| - |picked|
    ensures r in runs - picked <==> |Newer(runs, r)| < HISTORY_MAX_ROWS
  {
    var kept, newer := runs - picked, Newer(runs, r);
    if r in kept {
      assert newer <= kept - {r} by {
        forall x | x in newer ensures x in kept - {r} {
        }
      }
      SubsetSize(newer, kept - {r});
    } else {
      assert kept <= newer by {
        forall x | x in kept ensures x in newer {
          assert x.createdAt != r.createdAt;
        }
      }
      SubsetSize(kept, newer);
    }
  }

  // ---- Whether a listing shows it ----

  lemma {:induction false} ListedSurvives(runs: set<ReviewRun>, n: nat, picked: set<ReviewRun>, r: ReviewRun)
    requires OldestRows(runs, n, picked) && r in runs && |Older(runs, r)| >= n
    ensures r !in picked
  {
    if r in picked {
      assert picked == {r} + (picked - {r});
      SubsetSize(Older(runs, r), picked - {r});
    }
  }

  lemma {:induction false} UnseenPrune(runs: set<ReviewRun>, n: nat, rows: seq<ReviewRun>, picked: set<ReviewRun>)
    requires IsListing(runs, n, rows) && n <= HISTORY_MAX_ROWS
    requires OldestRows(runs, Overflow(runs), picked) && forall r | r in rows :: |Older(runs, r)| >= Overflow(runs)
    ensures IsListing(runs - picked, n, rows)
  {
    RestSize(runs, picked);
    forall i | 0 <= i < |rows| ensures rows[i] in runs - picked {
      ListedSurvives(runs, Overflow(runs), picked, rows[i]);
    }
  }

  // A choice of oldest rows can be extended to more.
  lemma {:induction false} ExtendOldest(runs: set<ReviewRun>, some: set<ReviewRun>, n: nat)
    returns (picked: set<ReviewRun>)
    requires OldestRows(runs, |some|, some) && |some| <= n <= |runs|
    ensures some <= picked && OldestRows(runs, n, picked)
  {
    picked := some;
    while |picked| < n
      invariant some <= picked && |picked| <= n && OldestRows(runs, |picked|, picked)
      decreases n - |picked|
    {
      OldestExists(runs - picked);
      RestSize(runs, picked);
      var r :| r in runs - picked && forall x | x in runs - picked :: r.createdAt <= x.createdAt;
      picked := picked + {r};
    }
  }

  lemma {:induction false} CouldBePicked(runs: set<ReviewRun>, n: nat, r: ReviewRun) returns (picked: set<ReviewRun>)
    requires r in runs && |Older(runs, r)| < n <= |runs|
    ensures r in picked && OldestRows(runs, n, picked)
  {
    var some := Older(runs, r) + {r};
    picked := ExtendOldest(runs, some, n);
  }

  // However rows of one time are ordered, a listing is the same before and
  // after pruning exactly if at least as many runs as are removed are strictly
  // older than each run it lists.
  lemma {:induction false} PruneIsUnseenIff(runs: set<ReviewRun>, n: nat, rows: seq<ReviewRun>)
    requires UniqueIds(runs) && IsListing(runs, n, rows) && n <= HISTORY_MAX_ROWS
    ensures (forall picked :: OldestRows(runs, Overflow(runs), picked) ==> IsListing(runs - picked, n, rows))
       <==> (forall r | r in rows :: |Older(runs, r)| >= Overflow(runs))
  {
    if forall r | r in rows :: |Older(runs, r)| >= Overflow(runs) {
      forall picked | OldestRows(runs, Overflow(runs), picked) ensures IsListing(runs - picked, n, rows) {
        UnseenPrune(runs, n, rows, picked);
      }
    } else {
      var r :| r in rows && |Older(runs, r)| < Overflow(runs);
      var i :| 0 <= i < |rows| && rows[i] == r;
      var picked := CouldBePicked(runs, Overflow(runs), r);
      assert rows[i] !in runs - picked;
    }
  }

  // With distinct times no listing, whatever limit is asked for, shows a prune.
  lemma {:induction false} PruneIsUnseen(runs: set<ReviewRun>, limit: int, rows: seq<ReviewRun>, picked: set<ReviewRun>)
    requires UniqueIds(runs) && DistinctTimes(runs) && IsListing(runs, Limit(limit), rows)
    requires OldestRows(runs, Overflow(runs), picked)
    ensures IsListing(runs - picked, Limit(limit), rows)
  {
    forall r | r in rows ensures |Older(runs, r)| >= Overflow(runs) {
      var i :| 0 <= i < |rows| && rows[i] == r;
      ListedIsNew(runs, Limit(limit), rows, i);
    }
    UnseenPrune(runs, Limit(limit), rows, picked);
  }

  // Row i of a listing has at most i newer ones.
  lemma {:induction false} ListedIsNew(runs: set<ReviewRun>, n: nat, rows: seq<ReviewRun>, i: nat)
    requires DistinctTimes(runs) && IsListing(runs, n, rows) && i < |rows|
    ensures |Older(runs, rows[i])| >= |runs| - 1 - i
  {
    var r := rows[i];
    NewerAbove(runs, n, rows, i);
    MembersSize(rows[..i]);
    SubsetSize(Newer(runs, r), Members(rows[..i]));
    Partition(runs, r);
  }

  lemma {:induction false} NewerAbove(runs: set<ReviewRun>, n: nat, rows: seq<ReviewRun>, i: nat)
    requires IsListing(runs, n, rows) && i < |rows|
    ensures Newer(runs, rows[i]) <= Members(rows[..i])
  {
    assert forall x | x in runs && x !in rows :: ListedBefore(rows[i], x);
    forall x | x in Newer(runs, rows[i]) ensures x in rows[..i] {
      var k :| 0 <= k < |rows| && rows[k] == x;
      assert k < i ==> rows[..i][k] == x;
    }
  }

  lemma {:induction false} Partition(runs: set<ReviewRun>, r: ReviewRun)
    requires DistinctTimes(runs) && r in runs
    ensures |runs| == |Older(runs, r)| + |Newer(runs, r)| + 1
  {
    assert runs == Older(runs, r) + Newer(runs, r) + {r};
  }

  function Members(rows: seq<ReviewRun>): set<ReviewRun> {
    set r | r in rows
  }

  lemma {:induction false} MembersSize(rows: seq<ReviewRun>)
    ensures |Members(rows)| <= |rows|
  {
    if rows != [] {
      var n := |rows| - 1;
      MembersSize(rows[..n]);
      assert Members(rows) == Members(rows[..n]) + {rows[n]};
    }
  }

  // ---- Runs of the history ----

  datatype Op = Persist(run: ReviewRun, pruneFails: bool) | Delete(id: int)

  ghost predicate Step(before: set<ReviewRun>, op: Op, after: set<ReviewRun>) {
    match op
    case Persist(run, pruneFails) =>
      !HasRun(before, run.id)
      && if pruneFails then after == before + {run} else Pruned(before + {run}, after)
    case Delete(id) => after == set r | r in before && r.id != id
  }

  ghost predicate Pruned(before: set<ReviewRun>, after: set<ReviewRun>) {
    exists picked :: OldestRows(before, Overflow(before), picked) && after == before - picked
  }

  // The history after a sequence of operations from an empty one.
  ghost predicate Leads(ops: seq<Op>, runs: set<ReviewRun>)
    decreases |ops|, 0
  {
    if ops == [] then runs == {} else LeadsBy(ops[..|ops| - 1], ops[|ops| - 1], runs)
  }

  ghost predicate LeadsBy(init: seq<Op>, op: Op, runs: set<ReviewRun>)
    decreases |init|, 1
  {
    exists before :: Leads(init, before) && Step(before, op, runs)
  }

  // Persists whose prune failed since the last one that pruned.
  function Unpruned(ops: seq<Op>): nat {
    if ops == [] then 0
    else
      var op, n := ops[|ops| - 1], Unpruned(ops[..|ops| - 1]);
      if op.Delete? then n else if op.pruneFails then n + 1 else 0
  }

  lemma {:induction false} PrunedSize(before: set<ReviewRun>, after: set<ReviewRun>)
    requires Pruned(before, after)
    ensures |after| == (if |before| <= HISTORY_MAX_ROWS then |before| else HISTORY_MAX_ROWS) && after <= before
  {
    var picked :| OldestRows(before, Overflow(before), picked) && after == before - picked;
    RestSize(before, picked);
  }

  // The history never exceeds the cap by more than the prunes that have failed
  // since the last successful one; the next that succeeds makes up for them.
  lemma {:induction false} StaysNearCap(ops: seq<Op>, runs: set<ReviewRun>)
    requires Leads(ops, runs)
    ensures |runs| <= HISTORY_MAX_ROWS + Unpruned(ops)
    decreases |ops|
  {
    if ops != [] {
      var before :| Leads(ops[..|ops| - 1], before) && Step(before, ops[|ops| - 1], runs);
      StaysNearCap(ops[..|ops| - 1], before);
      match ops[|ops| - 1]
      case Persist(run, pruneFails) => if !pruneFails { PrunedSize(before + {run}, runs); }
      case Delete(id) => SubsetSize(runs, before);
    }
  }

  // Only persists that prune, each later than the one before.
  ghost predicate Steady(ops: seq<Op>) {
    && (forall i | 0 <= i < |ops| :: ops[i].Persist? && !ops[i].pruneFails)
    && (forall i, j | 0 <= i < j < |ops| :: ops[i].run.createdAt < ops[j].run.createdAt)
  }

  // The runs persisted from operation lo on.
  function RunsFrom(ops: seq<Op>, lo: nat): set<ReviewRun>
    requires forall i | 0 <= i < |ops| :: ops[i].Persist?
  {
    set i | lo <= i < |ops| :: ops[i].run
  }

  lemma {:induction false} RunsFromSize(ops: seq<Op>, lo: nat)
    requires Steady(ops) && lo <= |ops|
    ensures |RunsFrom(ops, lo)| == |ops| - lo
    decreases |ops| - lo
  {
    if lo < |ops| {
      RunsFromSize(ops, lo + 1);
      RunsFromCons(ops, lo);
    } else {
      assert RunsFrom(ops, lo) == {};
    }
  }

  lemma {:induction false} RunsFromCons(ops: seq<Op>, lo: nat)
    requires Steady(ops) && lo < |ops|
    ensures RunsFrom(ops, lo) == {ops[lo].run} + RunsFrom(ops, lo + 1) && ops[lo].run !in RunsFrom(ops, lo + 1)
    ensures forall r | r in RunsFrom(ops, lo + 1) :: r.createdAt > ops[lo].run.createdAt
  {
    forall r | r in RunsFrom(ops, lo) ensures r in {ops[lo].run} + RunsFrom(ops, lo + 1) {
      var i :| lo <= i < |ops| && ops[i].run == r;
    }
    forall r | r in RunsFrom(ops, lo + 1) ensures r.createdAt > ops[lo].run.createdAt {
      var i :| lo < i < |ops| && ops[i].run == r;
      assert ops[lo].run.createdAt < ops[i].run.createdAt;
    }
  }

  lemma {:induction false} RunsFromSnoc(ops: seq<Op>, lo: nat)
    requires Steady(ops) && lo < |ops|
    ensures RunsFrom(ops, lo) == RunsFrom(ops[..|ops| - 1], lo) + {ops[|ops| - 1].run}
  {
    var n := |ops| - 1;
    var init := ops[..n];
    forall r | r in RunsFrom(init, lo) ensures r in RunsFrom(ops, lo) {
      var i :| lo <= i < n && init[i].run == r;
      assert ops[i].run == r;
    }
    forall r | r in RunsFrom(ops, lo) ensures r in RunsFrom(init, lo) + {ops[n].run} {
      var i :| lo <= i <= n && ops[i].run == r;
      assert i < n ==> init[i].run == r;
    }
  }

  lemma {:induction false} PruneLastThousand(ops: seq<Op>, lo: nat, grown: set<ReviewRun>, runs: set<ReviewRun>)
    requires Steady(ops) && lo <= |ops| <= lo + HISTORY_MAX_ROWS + 1
    requires grown == RunsFrom(ops, lo) && Pruned(grown, runs)
    ensures runs == RunsFrom(ops, if |ops| - lo <= HISTORY_MAX_ROWS then lo else lo + 1)
  {
    var picked :| OldestRows(grown, Overflow(grown), picked) && runs == grown - picked;
    RunsFromSize(ops, lo);
    if |ops| - lo > HISTORY_MAX_ROWS {
      FirstIsPicked(ops, lo, picked);
    } else {
      assert picked == {};
    }
  }

  // Where the last thousand of n operations start.
  function Start(n: nat): nat {
    if n <= HISTORY_MAX_ROWS then 0 else n - HISTORY_MAX_ROWS
  }

  lemma {:induction false} OneMoreRun(ops: seq<Op>, before: set<ReviewRun>, runs: set<ReviewRun>)
    requires Steady(ops) && ops != [] && before == RunsFrom(ops[..|ops| - 1], Start(|ops| - 1))
    requires Pruned(before + {ops[|ops| - 1].run}, runs)
    ensures runs == RunsFrom(ops, Start(|ops|))
  {
    RunsFromSnoc(ops, Start(|ops| - 1));
    PruneLastThousand(ops, Start(|ops| - 1), before + {ops[|ops| - 1].run}, runs);
  }

  lemma {:induction false} SteadyPrefix(ops: seq<Op>)
    requires Steady(ops) && ops != []
    ensures Steady(ops[..|ops| - 1]) && ops[|ops| - 1].Persist? && !ops[|ops| - 1].pruneFails
  {
  }

  lemma {:induction false} StepPrunes(before: set<ReviewRun>, op: Op, after: set<ReviewRun>)
    requires Step(before, op, after) && op.Persist? && !op.pruneFails
    ensures Pruned(before + {op.run}, after)
  {
  }

  // Then the history is exactly the last thousand runs, or all of them.
  lemma {:induction false} HoldsLastThousand(ops: seq<Op>, runs: set<ReviewRun>)
    requires Steady(ops) && Leads(ops, runs)
    ensures runs == RunsFrom(ops, Start(|ops|))
    decreases |ops|
  {
    if ops != [] {
      var n := |ops| - 1;
      var before :| Leads(ops[..n], before) && Step(before, ops[n], runs);
      SteadyPrefix(ops);
      StepPrunes(before, ops[n], runs);
      HoldsLastThousand(ops[..n], before);
      OneMoreRun(ops, before, runs);
    }
  }

  lemma {:induction false} FirstIsPicked(ops: seq<Op>, lo: nat, picked: set<ReviewRun>)
    requires Steady(ops) && lo < |ops| && OldestRows(RunsFrom(ops, lo), 1, picked)
    ensures RunsFrom(ops, lo) - picked == RunsFrom(ops, lo + 1)
  {
    var first := ops[lo].run;
    RunsFromCons(ops, lo);
    var p :| p in picked;
    assert picked == {p} + (picked - {p});
  }
}
