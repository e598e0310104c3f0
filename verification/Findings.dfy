// From the windows of a diff to the commits shown on each finding.

module Findings {
  import opened Chunks
  import DiffHunks
  import DiffWindows

  type LineWindow = DiffWindows.LineWindow

  // One commit that touched a window.
  datatype Entry = Entry(commitSha: string, subject: string, hunkLinesChanged: nat)

  // The commits `git log -L start,end:path` reports; [] also stands for a
  // lookup that failed or timed out.
  type Lookup = (string, int, int) -> seq<Entry>

  type Window = (LineWindow, seq<Entry>)
  type Pool = map<string, seq<Window>>

  datatype Request = Request(path: string, window: LineWindow)

  // A finding of the review; its place is fixed, its context is attached later.
  class Finding {
    const file: string
    const line: Option<int>
    var temporalContext: Option<seq<Entry>>

    constructor (file: string, line: Option<int>)
      ensures this.file == file && this.line == line && temporalContext == None
    {
      this.file, this.line, temporalContext := file, line, None;
    }
  }

  // ---- Filling the pool ----

  // One lookup, with its own clamp and its refusal of empty or non-positive ranges.
  function FetchContext(lookup: Lookup, r: Request): seq<Entry> {
    var w := DiffWindows.Clamp(r.window);
    if w.startLine < 1 || w.endLine < w.startLine then [] else lookup(r.path, w.startLine, w.endLine)
  }

  function AddToPool(pool: Pool, r: Request, entries: seq<Entry>): Pool {
    if entries == [] then pool
    else pool[r.path := (if r.path in pool then pool[r.path] else []) + [(r.window, entries)]]
  }

  function PoolOf(lookup: Lookup, reqs: seq<Request>): Pool
    decreases |reqs|
  {
    if reqs == [] then map[]
    else
      var r := reqs[|reqs| - 1];
      AddToPool(PoolOf(lookup, reqs[..|reqs| - 1]), r, FetchContext(lookup, r))
  }

  // How many of n requests are started when `late(k)` says whether the time
  // budget is spent as request k is about to start.
  function Started(n: nat, late: nat -> bool, k: nat := 0): nat
    requires k <= n
    decreases n - k
  {
    if k == n || late(k) then k else Started(n, late, k + 1)
  }

  lemma {:induction false} StartedBefore(n: nat, late: nat -> bool, k: nat)
    requires k <= n
    ensures k <= Started(n, late, k) <= n && (forall i | k <= i < Started(n, late, k) :: !late(i))
    ensures Started(n, late, k) < n ==> late(Started(n, late, k))
    decreases n - k
  {
    if k < n && !late(k) {
      StartedBefore(n, late, k + 1);
    }
  }

  // The lookups of one review.
  method FetchPool(reqs: seq<Request>, lookup: Lookup, late: nat -> bool) returns (pool: Pool)
    ensures Started(|reqs|, late) <= |reqs| && pool == PoolOf(lookup, reqs[..Started(|reqs|, late)])
  {
    var n := 0;
    while n < |reqs| && !late(n)
      invariant 0 <= n <= |reqs| && Started(|reqs|, late) == Started(|reqs|, late, n)
    {
      n := n + 1;
    }
    pool := map[];
    for i := 0 to n
      invariant pool == PoolOf(lookup, reqs[..i])
    {
      assert reqs[..i + 1][..i] == reqs[..i];
      var entries := FetchContext(lookup, reqs[i]);
      if entries == [] {
        continue;
      }
      ghost var before := pool;
      if reqs[i].path !in pool {
        pool := pool[reqs[i].path := []];
      }
      pool := pool[reqs[i].path := pool[reqs[i].path] + [(reqs[i].window, entries)]];
      assert pool == AddToPool(before, reqs[i], entries);
    }
  }

  // ---- Attaching ----

  // The first window that holds the line and has entries.
  function FirstMatch(windows: seq<Window>, line: int): Option<seq<Entry>> {
    if windows == [] then None
    else if DiffWindows.Contains(windows[0].0, line) && windows[0].1 != [] then Some(windows[0].1)
    else FirstMatch(windows[1..], line)
  }

  function ContextFor(pool: Pool, file: string, line: Option<int>): Option<seq<Entry>> {
    if line.None? || file !in pool then None else FirstMatch(pool[file], line.value)
  }

  method AttachTemporalContext(findings: seq<Finding>, pool: Pool)
    modifies findings
    ensures forall f | f in findings ::
      f.temporalContext
      == (if ContextFor(pool, f.file, f.line).Some? then ContextFor(pool, f.file, f.line) else old(f.temporalContext))
  {
    if pool == map[] {
      return;
    }
    for i := 0 to |findings|
      invariant forall f | f in findings ::
        f.temporalContext
        == (if f in findings[..i] && ContextFor(pool, f.file, f.line).Some? then ContextFor(pool, f.file, f.line)
            else old(f.temporalContext))
    {
      var f := findings[i];
      assert findings[..i + 1] == findings[..i] + [f];
      if f.line.None? {
        continue;
      }
      if f.file !in pool || pool[f.file] == [] {
        continue;
      }
      AttachOne(f, pool[f.file], f.line.value);
    }
    assert findings[..|findings|] == findings;
  }

  method AttachOne(f: Finding, windows: seq<Window>, line: int)
    modifies f
    ensures f.temporalContext
              == (if FirstMatch(windows, line).Some? then FirstMatch(windows, line) else old(f.temporalContext))
  {
    var k := 0;
    assert windows[0..] == windows;
    while k < |windows|
      invariant 0 <= k <= |windows|
      invariant f.temporalContext == old(f.temporalContext)
      invariant FirstMatch(windows, line) == FirstMatch(windows[k..], line)
    {
      var (window, entries) := windows[k];
      if DiffWindows.Contains(window, line) && entries != [] {
        f.temporalContext := Some(entries);
        break;
      }
      k := k + 1;
    }
  }

  // ---- What the pool holds ----

  ghost predicate Holds(pool: Pool, path: string, window: LineWindow, entries: seq<Entry>) {
    path in pool && (window, entries) in pool[path]
  }

  // The pool holds exactly the started requests that found commits.
  lemma {:induction false} PoolHolds(lookup: Lookup, reqs: seq<Request>, path: string, window: LineWindow,
                                     entries: seq<Entry>)
    ensures Holds(PoolOf(lookup, reqs), path, window, entries)
       <==> Request(path, window) in reqs && entries != [] && FetchContext(lookup, Request(path, window)) == entries
    decreases |reqs|
  {
    if reqs != [] {
      var r, rest := reqs[|reqs| - 1], reqs[..|reqs| - 1];
      assert reqs == rest + [r];
      PoolHolds(lookup, rest, path, window, entries);
    }
  }

  ghost predicate Matches(w: Window, line: int) {
    w.0.startLine <= line <= w.0.endLine && w.1 != []
  }

  // The first window that holds the line and has entries, if there is one.
  lemma {:induction false} FirstMatchIff(windows: seq<Window>, line: int) returns (i: nat)
    ensures FirstMatch(windows, line).Some? ==>
              && i < |windows| && Matches(windows[i], line) && FirstMatch(windows, line).value == windows[i].1
              && (forall j | 0 <= j < i :: !Matches(windows[j], line))
    ensures FirstMatch(windows, line).None? ==> forall j | 0 <= j < |windows| :: !Matches(windows[j], line)
  {
    i := 0;
    if windows != [] && !Matches(windows[0], line) {
      var k := FirstMatchIff(windows[1..], line);
      i := k + 1;
      forall j | 0 <= j < |windows| && (FirstMatch(windows, line).None? || j < i) ensures !Matches(windows[j], line) {
        if j > 0 {
          assert windows[j] == windows[1..][j - 1];
        }
      }
    }
  }

  // What a finding gets from a pool, whatever it holds: the commits of the first
  // window of its file that holds its line and has some; nothing without a line.
  lemma {:induction false} ContextIsFirstMatch(pool: Pool, file: string, line: Option<int>) returns (i: nat)
    ensures line.None? || file !in pool ==> ContextFor(pool, file, line) == None
    ensures
      line.Some? && file in pool ==>
        if ContextFor(pool, file, line).None? then
          forall j | 0 <= j < |pool[file]| :: !Matches(pool[file][j], line.value)
        else
          && i < |pool[file]| && Matches(pool[file][i], line.value)
          && ContextFor(pool, file, line) == Some(pool[file][i].1)
          && forall j | 0 <= j < i :: !Matches(pool[file][j], line.value)
  {
    i := 0;
    if line.Some? && file in pool {
      i := FirstMatchIff(pool[file], line.value);
    }
  }

  // What a lookup is asked for: the window's first 200 lines, if it has any and
  // they start at line 1 or later.
  lemma {:induction false} LookedUpAs(lookup: Lookup, r: Request)
    ensures
      var w := r.window;
      FetchContext(lookup, r) ==
        if w.startLine < 1 || w.endLine < w.startLine then []
        else if w.endLine <= w.startLine + 199 then lookup(r.path, w.startLine, w.endLine)
        else lookup(r.path, w.startLine, w.startLine + 199)
  {
  }

  // ---- From the diff's windows ----

  function DiffWindowsOf(diff: string): map<string, seq<LineWindow>> {
    DiffWindows.WindowsByFile(DiffHunks.RhsHunks(diff))
  }

  // Requests are made for windows of the diff.
  ghost predicate ForDiff(diff: string, reqs: seq<Request>) {
    forall r | r in reqs :: r.path in DiffWindowsOf(diff) && r.window in DiffWindowsOf(diff)[r.path]
  }

  // A window starts where some hunk covers its first line.
  lemma {:induction false} WindowStartCovered(hunks: seq<DiffWindows.Hunk>, w: LineWindow)
    requires w in DiffWindows.CollapseFile(hunks)
    ensures DiffWindows.Covered(hunks, w.startLine)
  {
    DiffWindows.CollapseIsTidy(hunks);
    var i :| 0 <= i < |DiffWindows.CollapseFile(hunks)| && DiffWindows.CollapseFile(hunks)[i] == w;
    var chain := DiffWindows.Chains(hunks)[i];
    DiffWindows.ChainsAreMaximal(hunks, chain.startLine, chain.endLine);
  }

  // Every window of a diff starts at line 1 or later, has 1 to 200 lines, and
  // so is looked up as it stands.
  lemma {:induction false} WindowsPassClamp(diff: string, lookup: Lookup, path: string, w: LineWindow)
    requires path in DiffWindowsOf(diff) && w in DiffWindowsOf(diff)[path]
    ensures 1 <= w.startLine <= w.endLine < w.startLine + DiffWindows.MAX_LINE_RANGE
    ensures DiffWindows.Clamp(w) == w && FetchContext(lookup, Request(path, w)) == lookup(path, w.startLine, w.endLine)
  {
    var hunks := DiffHunks.RhsHunks(diff)[path];
    DiffHunks.RhsHunksPositive(diff);
    WindowStartCovered(hunks, w);
    var k :| 0 <= k < |hunks| && hunks[k].1 > 0 && hunks[k].0 <= w.startLine < hunks[k].0 + hunks[k].1;
    DiffWindows.CollapseIsTidy(hunks);
  }

  lemma {:induction false} OneWindowPerLine(diff: string, path: string, a: LineWindow, b: LineWindow, line: int)
    requires path in DiffWindowsOf(diff) && a in DiffWindowsOf(diff)[path] && b in DiffWindowsOf(diff)[path]
    requires DiffWindows.Contains(a, line) && DiffWindows.Contains(b, line)
    ensures a == b
  {
    var ws := DiffWindowsOf(diff)[path];
    DiffWindows.CollapseIsTidy(DiffHunks.RhsHunks(diff)[path]);
    var i :| 0 <= i < |ws| && ws[i] == a;
    var j :| 0 <= j < |ws| && ws[j] == b;
    assert forall p, q | 0 <= p < q < |ws| :: ws[p].endLine < ws[q].startLine;
  }

  // The commits found for the window that holds a line.
  ghost predicate Found(lookup: Lookup, reqs: seq<Request>, path: string, line: int, entries: seq<Entry>) {
    exists w :: Request(path, w) in reqs && DiffWindows.Contains(w, line)
        && lookup(path, w.startLine, w.endLine) == entries
  }

  // A finding gets context exactly when it is on a line and a looked-up window
  // of its file holds that line and has commits; it then gets that window's.
  lemma {:induction false} ContextExactly(diff: string, lookup: Lookup, reqs: seq<Request>, path: string,
                                          line: Option<int>, entries: seq<Entry>)
    requires ForDiff(diff, reqs)
    ensures ContextFor(PoolOf(lookup, reqs), path, line) == Some(entries)
       <==> line.Some? && entries != [] && Found(lookup, reqs, path, line.value, entries)
  {
    var pool := PoolOf(lookup, reqs);
    if ContextFor(pool, path, line) == Some(entries) {
      var i := FirstMatchIff(pool[path], line.value);
      var w := pool[path][i].0;
      assert Holds(pool, path, w, entries);
      PoolHolds(lookup, reqs, path, w, entries);
      WindowsPassClamp(diff, lookup, path, w);
    }
    if line.Some? && entries != [] && Found(lookup, reqs, path, line.value, entries) {
      var w :| Request(path, w) in reqs && DiffWindows.Contains(w, line.value)
          && lookup(path, w.startLine, w.endLine) == entries;
      WindowsPassClamp(diff, lookup, path, w);
      PoolHolds(lookup, reqs, path, w, entries);
      var i := FirstMatchIff(pool[path], line.value);
      assert FirstMatch(pool[path], line.value).Some? by {
        var k :| 0 <= k < |pool[path]| && pool[path][k] == (w, entries);
        assert Matches(pool[path][k], line.value);
      }
      var v := pool[path][i].0;
      assert Holds(pool, path, v, pool[path][i].1);
      PoolHolds(lookup, reqs, path, v, pool[path][i].1);
      OneWindowPerLine(diff, path, v, w, line.value);
    }
  }

  // The order in which lookups were started, or repeated, does not matter.
  lemma {:induction false} PoolOrderIrrelevant(diff: string, lookup: Lookup, a: seq<Request>, b: seq<Request>,
                                               path: string, line: Option<int>)
    requires ForDiff(diff, a) && forall r :: r in a <==> r in b
    ensures ContextFor(PoolOf(lookup, a), path, line) == ContextFor(PoolOf(lookup, b), path, line)
  {
    var ca, cb := ContextFor(PoolOf(lookup, a), path, line), ContextFor(PoolOf(lookup, b), path, line);
    if ca.Some? {
      ContextExactly(diff, lookup, a, path, line, ca.value);
      ContextExactly(diff, lookup, b, path, line, ca.value);
    }
    if cb.Some? {
      ContextExactly(diff, lookup, a, path, line, cb.value);
      ContextExactly(diff, lookup, b, path, line, cb.value);
    }
  }
}
