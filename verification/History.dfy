// The history of past reviews: stored runs with their findings, listed newest
// first and pruned to a thousand.

module History {
  import opened Chunks

  const HISTORY_MAX_ROWS := 1000
  const DEFAULT_LIST_LIMIT := 50
  const MAX_LIST_LIMIT := 200

  datatype ReviewRun = ReviewRun(id: int, createdAt: int, findingCount: nat)
  datatype ReviewFinding = ReviewFinding(runId: int, position: nat, message: string)

  ghost predicate UniqueIds(runs: set<ReviewRun>) {
    forall a, b | a in runs && b in runs && a.id == b.id :: a == b
  }

  ghost predicate HasRun(runs: set<ReviewRun>, id: int) {
    exists r :: r in runs && r.id == id
  }

  // Ids are unique; every finding belongs to a run, at a position of its own.
  ghost predicate Linked(runs: set<ReviewRun>, findings: set<ReviewFinding>) {
    && UniqueIds(runs)
    && (forall f | f in findings :: HasRun(runs, f.runId))
    && (forall f, g | f in findings && g in findings && f.runId == g.runId && f.position == g.position :: f == g)
  }

  lemma {:induction false} InsertLinked(runs: set<ReviewRun>, findings: set<ReviewFinding>, run: ReviewRun,
                                        rows: set<ReviewFinding>)
    requires Linked(runs, findings) && !HasRun(runs, run.id)
    requires (forall f | f in rows :: f.runId == run.id) && Linked({run}, rows)
    ensures Linked(runs + {run}, findings + rows)
  {
    forall f | f in findings + rows ensures HasRun(runs + {run}, f.runId) {
      if f in findings {
        var r :| r in runs && r.id == f.runId;
        assert r in runs + {run};
      } else {
        assert run in runs + {run};
      }
    }
    assert forall r | r in runs :: r.id != run.id;
  }

  lemma {:induction false} RowsLinked(run: ReviewRun, messages: seq<string>)
    ensures Linked({run}, FindingRows(run.id, messages))
    ensures forall f | f in FindingRows(run.id, messages) :: f.runId == run.id
  {
    assert run in {run};
  }

  // Dropping runs together with their findings.
  lemma {:induction false} DropLinked(runs: set<ReviewRun>, findings: set<ReviewFinding>, gone: set<ReviewRun>)
    requires Linked(runs, findings) && gone <= runs
    ensures Linked(runs - gone, set f | f in findings && !HasRun(gone, f.runId))
  {
    forall f | f in findings && !HasRun(gone, f.runId) ensures HasRun(runs - gone, f.runId) {
      var r :| r in runs && r.id == f.runId;
      assert r in runs - gone;
    }
  }

  // ---- SELECT ... ORDER BY ... LIMIT ----

  // Possible results of ORDER BY created_at ASC LIMIT n: rows of one time come
  // in any order.
  ghost predicate OldestRows(runs: set<ReviewRun>, n: nat, picked: set<ReviewRun>) {
    && picked <= runs && |picked| == n
    && forall p, r | p in picked && r in runs && r !in picked :: p.createdAt <= r.createdAt
  }

  // a is listed before b: created_at DESC, id DESC
  predicate ListedBefore(a: ReviewRun, b: ReviewRun) {
    a.createdAt > b.createdAt || (a.createdAt == b.createdAt && a.id > b.id)
  }

  ghost predicate IsLatest(runs: set<ReviewRun>, r: ReviewRun) {
    r in runs && forall x | x in runs && x != r :: ListedBefore(r, x)
  }

  // The first n rows in listing order.
  ghost predicate IsListing(runs: set<ReviewRun>, n: nat, rows: seq<ReviewRun>) {
    && |rows| == (if n <= |runs| then n else |runs|)
    && (forall i | 0 <= i < |rows| :: rows[i] in runs)
    && (forall i, j | 0 <= i < j < |rows| :: ListedBefore(rows[i], rows[j]))
    && (forall i, r | 0 <= i < |rows| && r in runs && r !in rows :: ListedBefore(rows[i], r))
  }

  function Limit(limit: int): (n: nat)
    ensures 1 <= n <= 200
    ensures 1 <= limit <= 200 ==> n == limit
    ensures limit > 200 ==> n == 200
    ensures limit < 1 ==> n == 50
  {
    if limit < 1 then DEFAULT_LIST_LIMIT else if limit > MAX_LIST_LIMIT then MAX_LIST_LIMIT else limit
  }

  function Overflow(runs: set<ReviewRun>): nat {
    if |runs| > HISTORY_MAX_ROWS then |runs| - HISTORY_MAX_ROWS else 0
  }

  // ---- The store ----

  class ReviewHistory {
    var runs: set<ReviewRun>
    var findings: set<ReviewFinding>

    ghost predicate Valid()
      reads this
    {
      Linked(runs, findings)
    }

    constructor ()
      ensures Valid() && runs == {} && findings == {}
    {
      runs, findings := {}, {};
    }

    method InsertRun(id: int, createdAt: int, messages: seq<string>) returns (run: ReviewRun)
      requires Valid() && !HasRun(runs, id)
      modifies this
      ensures Valid() && run == ReviewRun(id, createdAt, |messages|)
      ensures runs == old(runs) + {run} && run !in old(runs)
      ensures findings == old(findings) + FindingRows(id, messages)
    {
      run := ReviewRun(id, createdAt, |messages|);
      var rows: set<ReviewFinding> := {};
      for position := 0 to |messages|
        invariant rows == FindingRows(id, messages[..position])
        invariant runs == old(runs) && findings == old(findings)
      {
        FindingRowsSnoc(id, messages[..position], messages[position]);
        assert messages[..position + 1] == messages[..position] + [messages[position]];
        rows := rows + {ReviewFinding(id, position, messages[position])};
      }
      assert messages[..|messages|] == messages;
      RowsLinked(run, messages);
      assert forall r | r in runs :: r.id != id;
      InsertLinked(runs, findings, run, rows);
      runs := runs + {run};
      findings := findings + rows;
    }

    method ListRuns(limit: int) returns (rows: seq<ReviewRun>)
      requires Valid()
      ensures IsListing(runs, Limit(limit), rows)
    {
      var n := limit;
      if n < 1 { n := DEFAULT_LIST_LIMIT; }
      if n > MAX_LIST_LIMIT { n := MAX_LIST_LIMIT; }
      rows := FirstRows(n);
    }

    // ORDER BY created_at DESC, id DESC LIMIT n
    method FirstRows(n: nat) returns (rows: seq<ReviewRun>)
      requires Valid()
      ensures IsListing(runs, n, rows)
    {
      rows := [];
      var rest := runs;
      while |rows| < n && rest != {}
        invariant |rows| <= n && rest <= runs && |rest| + |rows| == |runs|
        invariant forall r | r in runs :: r in rows <==> r !in rest
        invariant forall i | 0 <= i < |rows| :: rows[i] in runs && rows[i] !in rest
        invariant forall i, j | 0 <= i < j < |rows| :: ListedBefore(rows[i], rows[j])
        invariant forall i, r | 0 <= i < |rows| && r in rest :: ListedBefore(rows[i], r)
        decreases |rest|
      {
        LatestExists(rest);
        var r :| r in rest && forall x | x in rest && x != r :: ListedBefore(r, x);
        rows := rows + [r];
        rest := rest - {r};
      }
    }

    // DELETE of some runs; the foreign key cascades to their findings.
    method DeleteRows(gone: set<ReviewRun>)
      requires Valid() && gone <= runs
      modifies this
      ensures Valid()
      ensures runs == old(runs) - gone && findings == set f | f in old(findings) && !HasRun(gone, f.runId)
    {
      DropLinked(runs, findings, gone);
      var ids := set r | r in gone :: r.id;
      forall f | f in findings ensures f.runId in ids <==> HasRun(gone, f.runId) {
        if HasRun(gone, f.runId) {
          var r :| r in gone && r.id == f.runId;
        }
      }
      runs := runs - gone;
      findings := set f | f in findings && f.runId !in ids;
    }

    method DeleteRun(id: int) returns (deleted: bool)
      requires Valid()
      modifies this
      ensures Valid()
      ensures runs == (set r | r in old(runs) && r.id != id)
                && findings == (set f | f in old(findings) && f.runId != id)
      ensures deleted <==> HasRun(old(runs), id)
    {
      var hit := set r | r in runs && r.id == id;
      deleted := hit != {};
      if deleted {
        var r :| r in hit;
        assert HasRun(runs, id) && HasRun(hit, id);
      }
      forall i ensures HasRun(hit, i) <==> i == id && HasRun(runs, i) {
        if HasRun(runs, i) && i == id {
          var r :| r in runs && r.id == i;
          assert r in hit;
        }
      }
      DeleteRows(hit);
    }

    // Remove the oldest rows beyond the cap, with their findings.
    method PruneToCap() returns (removed: nat, ghost picked: set<ReviewRun>)
      requires Valid()
      modifies this
      ensures Valid()
      ensures removed == Overflow(old(runs)) && OldestRows(old(runs), removed, picked)
      ensures runs == old(runs) - picked && findings == set f | f in old(findings) && !HasRun(picked, f.runId)
    {
      var overflow := if |runs| > HISTORY_MAX_ROWS then |runs| - HISTORY_MAX_ROWS else 0;
      if overflow == 0 {
        return 0, {};
      }
      var oldest := SelectOldest(overflow);
      DeleteRows(oldest);
      removed, picked := |oldest|, oldest;
    }

    method SelectOldest(n: nat) returns (picked: set<ReviewRun>)
      requires n <= |runs|
      ensures OldestRows(runs, n, picked)
    {
      picked := {};
      while |picked| < n
        invariant |picked| <= n && OldestRows(runs, |picked|, picked)
        decreases n - |picked|
      {
        OldestExists(runs - picked);
        RestSize(runs, picked);
        var r :| r in runs - picked && forall x | x in runs - picked :: r.createdAt <= x.createdAt;
        picked := picked + {r};
      }
    }

    // Insert, then prune, as two transactions; any exception is caught.
    method PersistRun(id: int, createdAt: int, messages: seq<string>, failure: Option<PersistFailure>)
      returns (runId: Option<int>, ghost picked: set<ReviewRun>)
      requires Valid() && !HasRun(runs, id)
      modifies this
      ensures Valid()
      ensures runId == if failure.None? then Some(id) else None
      ensures failure == Some(InsertFails) ==> runs == old(runs) && findings == old(findings)
      ensures
        var grown := old(runs) + {ReviewRun(id, createdAt, |messages|)};
        var rows := old(findings) + FindingRows(id, messages);
        && (failure == Some(PruneFails) ==> runs == grown && findings == rows)
        && (failure.None? ==> OldestRows(grown, Overflow(grown), picked) && runs == grown - picked
                              && findings == set f | f in rows && !HasRun(picked, f.runId))
    {
      picked := {};
      if failure == Some(InsertFails) {
        return None, picked;
      }
      var _ := InsertRun(id, createdAt, messages);
      if failure.Some? {
        return None, picked;
      }
      var removed;
      removed, picked := PruneToCap();
      runId := Some(id);
    }
  }

  // What a persist meets: nothing is stored, or the run is but nothing pruned.
  datatype PersistFailure = InsertFails | PruneFails

  function FindingRows(id: int, messages: seq<string>): set<ReviewFinding> {
    set i | 0 <= i < |messages| :: ReviewFinding(id, i, messages[i])
  }

  // One row per finding, at its place in the list.
  lemma {:induction false} FindingRowsExactly(id: int, messages: seq<string>, f: ReviewFinding)
    ensures f in FindingRows(id, messages) <==>
              f.runId == id && f.position < |messages| && f.message == messages[f.position]
  {
    if f.runId == id && f.position < |messages| && f.message == messages[f.position] {
      assert f == ReviewFinding(id, f.position, messages[f.position]);
    }
  }

  lemma {:induction false} FindingRowsSnoc(id: int, messages: seq<string>, m: string)
    ensures FindingRows(id, messages + [m]) == FindingRows(id, messages) + {ReviewFinding(id, |messages|, m)}
  {
    var more := messages + [m];
    forall f | f in FindingRows(id, messages) + {ReviewFinding(id, |messages|, m)} ensures f in FindingRows(id, more) {
      if f.position == |messages| {
        assert more[|messages|] == m;
      } else {
        assert more[f.position] == messages[f.position];
      }
    }
  }

  lemma {:induction false} RestSize(runs: set<ReviewRun>, picked: set<ReviewRun>)
    requires picked <= runs
    ensures |runs - picked| == |runs| - |picked|
    ensures |picked| < |runs| ==> runs - picked != {}
  {
    assert runs == picked + (runs - picked);
  }

  lemma {:induction false} OldestExists(runs: set<ReviewRun>)
    ensures runs != {} ==> exists r :: r in runs && forall x | x in runs :: r.createdAt <= x.createdAt
    decreases |runs|
  {
    if runs != {} {
      var a :| a in runs;
      var rest := runs - {a};
      if rest != {} {
        OldestExists(rest);
        var b :| b in rest && forall x | x in rest :: b.createdAt <= x.createdAt;
        var m := if a.createdAt <= b.createdAt then a else b;
        assert forall x | x in runs :: x == a || x in rest;
        assert m in runs && forall x | x in runs :: m.createdAt <= x.createdAt;
      } else {
        assert runs == {a};
      }
    }
  }

  lemma {:induction false} LatestExists(runs: set<ReviewRun>)
    requires UniqueIds(runs)
    ensures runs != {} ==> exists r :: IsLatest(runs, r)
    decreases |runs|
  {
    if runs != {} {
      var a :| a in runs;
      var rest := runs - {a};
      if rest != {} {
        LatestExists(rest);
        var b :| IsLatest(rest, b);
        assert a.id != b.id;
        assert forall x | x in runs :: x == a || x in rest;
        if ListedBefore(a, b) {
          assert IsLatest(runs, a);
        } else {
          assert IsLatest(runs, b);
        }
      } else {
        assert runs == {a} && IsLatest(runs, a);
      }
    }
  }

  // ---- There is one listing ----

  lemma {:induction false} OneListing(runs: set<ReviewRun>, n: nat, a: seq<ReviewRun>, b: seq<ReviewRun>)
    requires IsListing(runs, n, a) && IsListing(runs, n, b)
    ensures a == b
  {
    var i := 0;
    while i < |a|
      invariant 0 <= i <= |a| == |b| && a[..i] == b[..i]
    {
      Ahead(runs, n, a, b, i);
      Ahead(runs, n, b, a, i);
      i := i + 1;
    }
    assert a[..|a|] == a && b[..|b|] == b;
  }

  // Where two listings part, each would have to be ahead of the other.
  lemma {:induction false} Ahead(runs: set<ReviewRun>, n: nat, a: seq<ReviewRun>, b: seq<ReviewRun>, i: nat)
    requires IsListing(runs, n, a) && IsListing(runs, n, b) && i < |a| && a[..i] == b[..i]
    ensures a[i] == b[i] || ListedBefore(b[i], a[i])
  {
    forall j | 0 <= j < i ensures a[j] == b[j] {
      assert a[..i][j] == b[..i][j];
    }
    if a[i] in b {
      var j :| 0 <= j < |b| && b[j] == a[i];
    }
  }
}
