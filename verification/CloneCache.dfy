// The on-disk cache of git clones: directories with modification times, the
// oldest removed when there are more than five.

module CloneCache {
  import opened Chunks

  const MAX_CACHED_REPOS := 5
  const STALE_CLONE_S := 3600

  // Cached source -> modification time of its directory.
  type Dirs = map<string, int>

  // One call: its source, whether `git clone` would succeed, the time at which
  // it looks or clones, and the later time at which it touches the directory.
  datatype Access = Access(source: string, cloneOk: bool, start: int, touch: int)

  predicate IsHttpsSource(source: string) {
    "https://" <= source || "http://" <= source
  }

  // ---- Eviction ----

  // The cached sources used after x, by modification time.
  function Newer(dirs: Dirs, x: string): set<string>
    requires x in dirs
  {
    set y | y in dirs && dirs[y] > dirs[x]
  }

  // What eviction should leave: the sources with fewer than five newer ones.
  function Newest(dirs: Dirs): Dirs {
    map x | x in dirs && |Newer(dirs, x)| < MAX_CACHED_REPOS :: dirs[x]
  }

  ghost predicate DistinctTimes(dirs: Dirs) {
    forall x, y | x in dirs && y in dirs && dirs[x] == dirs[y] :: x == y
  }

  function InsertByTime(x: string, xs: seq<string>, dirs: Dirs): seq<string>
    requires x in dirs && forall y | y in xs :: y in dirs
    ensures multiset(InsertByTime(x, xs, dirs)) == multiset(xs) + multiset{x}
  {
    if xs == [] || dirs[x] <= dirs[xs[0]] then [x] + xs
    else
      assert xs == [xs[0]] + xs[1..];
      [xs[0]] + InsertByTime(x, xs[1..], dirs)
  }

  // entries.sort(key=mtime)
  function SortByTime(xs: seq<string>, dirs: Dirs): (s: seq<string>)
    requires forall y | y in xs :: y in dirs
    ensures multiset(s) == multiset(xs)
  {
    if xs == [] then []
    else
      assert xs == [xs[0]] + xs[1..];
      var rest := SortByTime(xs[1..], dirs);
      assert forall y | y in rest :: y in multiset(rest);
      InsertByTime(xs[0], rest, dirs)
  }

  ghost predicate Ordered(xs: seq<string>, dirs: Dirs)
    requires forall y | y in xs :: y in dirs
  {
    forall i, j | 0 <= i < j < |xs| :: dirs[xs[i]] <= dirs[xs[j]]
  }

  lemma {:induction false} InsertMembers(x: string, xs: seq<string>, dirs: Dirs, y: string)
    requires x in dirs && forall z | z in xs :: z in dirs
    ensures y in InsertByTime(x, xs, dirs) <==> y == x || y in xs
  {
    assert y in InsertByTime(x, xs, dirs) <==> y in multiset(InsertByTime(x, xs, dirs));
  }

  lemma {:induction false} InsertOrdered(x: string, xs: seq<string>, dirs: Dirs)
    requires x in dirs && (forall y | y in xs :: y in dirs) && Ordered(xs, dirs)
    ensures (forall y | y in InsertByTime(x, xs, dirs) :: y in dirs) && Ordered(InsertByTime(x, xs, dirs), dirs)
  {
    forall y | y in InsertByTime(x, xs, dirs) ensures y in dirs {
      InsertMembers(x, xs, dirs, y);
    }
    if xs != [] && dirs[x] > dirs[xs[0]] {
      var rest := InsertByTime(x, xs[1..], dirs);
      InsertOrdered(x, xs[1..], dirs);
      forall y | y in rest ensures dirs[xs[0]] <= dirs[y] {
        InsertMembers(x, xs[1..], dirs, y);
      }
    }
  }

  lemma {:induction false} SortOrdered(xs: seq<string>, dirs: Dirs)
    requires forall y | y in xs :: y in dirs
    ensures (forall y | y in SortByTime(xs, dirs) :: y in dirs) && Ordered(SortByTime(xs, dirs), dirs)
  {
    if xs != [] {
      SortOrdered(xs[1..], dirs);
      InsertOrdered(xs[0], SortByTime(xs[1..], dirs), dirs);
    }
  }

  ghost predicate NoDup(xs: seq<string>) {
    forall i, j | 0 <= i < j < |xs| :: xs[i] != xs[j]
  }

  function SetOf(xs: seq<string>): set<string> {
    set i | 0 <= i < |xs| :: xs[i]
  }

  lemma {:induction false} SetOfSize(xs: seq<string>)
    requires NoDup(xs)
    ensures |SetOf(xs)| == |xs|
  {
    if xs != [] {
      var rest := xs[..|xs| - 1];
      SetOfSize(rest);
      assert SetOf(xs) == SetOf(rest) + {xs[|xs| - 1]} by {
        forall i | 0 <= i < |xs| ensures xs[i] in SetOf(rest) + {xs[|xs| - 1]} {
          if i < |xs| - 1 {
            assert rest[i] == xs[i];
          }
        }
      }
    }
  }

  lemma {:induction false} NoDupFromMultiset(xs: seq<string>, ys: seq<string>)
    requires NoDup(xs) && multiset(xs) == multiset(ys)
    ensures NoDup(ys)
    ensures SetOf(ys) == SetOf(xs)
  {
    forall y ensures multiset(xs)[y] <= 1 {
      AtMostOnce(xs, y);
    }
    forall i, j | 0 <= i < j < |ys| ensures ys[i] != ys[j] {
      CountedTwice(ys, i, j);
    }
    forall y ensures y in SetOf(xs) <==> y in SetOf(ys) {
      assert y in SetOf(xs) <==> y in multiset(xs);
      assert y in SetOf(ys) <==> y in multiset(ys);
    }
  }

  lemma {:induction false} AtMostOnce(xs: seq<string>, y: string)
    requires NoDup(xs)
    ensures multiset(xs)[y] <= 1
  {
    if xs != [] {
      AtMostOnce(xs[1..], y);
      assert xs == [xs[0]] + xs[1..];
      if xs[0] == y {
        assert y !in xs[1..];
      }
    }
  }

  // Directories listed once each, oldest first.
  ghost predicate Listing(entries: seq<string>, dirs: Dirs) {
    NoDup(entries) && SetOf(entries) == dirs.Keys
    && forall i, j | 0 <= i < j < |entries| ::
           entries[i] in dirs && entries[j] in dirs && dirs[entries[i]] <= dirs[entries[j]]
  }

  lemma {:induction false} ListingNewer(entries: seq<string>, dirs: Dirs, i: nat)
    requires Listing(entries, dirs) && DistinctTimes(dirs) && i < |entries|
    ensures entries[i] in dirs && Newer(dirs, entries[i]) == SetOf(entries[i + 1..])
    ensures |Newer(dirs, entries[i])| == |entries| - 1 - i
  {
    var x, later := entries[i], entries[i + 1..];
    assert x in SetOf(entries);
    forall y | y in Newer(dirs, x) ensures y in SetOf(later) {
      assert y in SetOf(entries);
      var j :| 0 <= j < |entries| && entries[j] == y;
      if j > i {
        assert later[j - i - 1] == y;
      }
    }
    forall y | y in SetOf(later) ensures y in Newer(dirs, x) {
      var k :| 0 <= k < |later| && later[k] == y;
      assert entries[k + i + 1] in SetOf(entries) && entries[k + i + 1] != x;
    }
    SetOfSize(later);
  }

  lemma {:induction false} DroppedIff(entries: seq<string>, dirs: Dirs, k: nat, x: string)
    requires Listing(entries, dirs) && DistinctTimes(dirs) && x in dirs
    requires k <= |entries| && (k == 0 || |entries| - k == MAX_CACHED_REPOS) && |entries| - k <= MAX_CACHED_REPOS
    ensures x in SetOf(entries[..k]) <==> |Newer(dirs, x)| >= MAX_CACHED_REPOS
  {
    assert x in SetOf(entries);
    var i :| 0 <= i < |entries| && entries[i] == x;
    ListingNewer(entries, dirs, i);
    if i < k {
      assert entries[..k][i] == x;
    }
  }

  lemma {:induction false} SetOfPrefix(entries: seq<string>, k: nat)
    requires NoDup(entries) && k <= |entries|
    ensures SetOf(entries[..k]) <= SetOf(entries) && |SetOf(entries) - SetOf(entries[..k])| == |entries| - k
  {
    SetOfSize(entries);
    SetOfSize(entries[..k]);
    forall x | x in SetOf(entries[..k]) ensures x in SetOf(entries) {
      var i :| 0 <= i < |entries[..k]| && entries[..k][i] == x;
      assert entries[i] == x;
    }
  }

  // Dropping the oldest until five are left keeps exactly the newest five.
  lemma {:induction false} KeptIsNewest(entries: seq<string>, dirs: Dirs, k: nat)
    requires Listing(entries, dirs) && DistinctTimes(dirs)
    requires k <= |entries| && (k == 0 || |entries| - k == MAX_CACHED_REPOS) && |entries| - k <= MAX_CACHED_REPOS
    ensures Newest(dirs) == dirs - SetOf(entries[..k])
    ensures |Newest(dirs)| == |entries| - k
  {
    forall x | x in dirs ensures x in SetOf(entries[..k]) <==> |Newer(dirs, x)| >= MAX_CACHED_REPOS {
      DroppedIff(entries, dirs, k, x);
    }
    NewestWithout(dirs, SetOf(entries[..k]));
    SetOfPrefix(entries, k);
  }

  lemma {:induction false} NewestWithout(dirs: Dirs, gone: set<string>)
    requires forall x | x in dirs :: x in gone <==> |Newer(dirs, x)| >= MAX_CACHED_REPOS
    ensures Newest(dirs) == dirs - gone && |Newest(dirs)| == |dirs.Keys - gone|
  {
    assert Newest(dirs).Keys == dirs.Keys - gone;
  }

  lemma {:induction false} ListingExists(dirs: Dirs) returns (entries: seq<string>)
    ensures Listing(entries, dirs)
  {
    var todo := dirs.Keys;
    var listed: seq<string> := [];
    while todo != {}
      invariant NoDup(listed) && todo <= dirs.Keys && SetOf(listed) == dirs.Keys - todo
      decreases todo
    {
      var x :| x in todo;
      ghost var before := listed;
      listed := listed + [x];
      forall i | 0 <= i < |before| ensures before[i] != x {
        assert before[i] in SetOf(before);
      }
      todo := todo - {x};
      SetOfSnoc(before, x);
    }
    entries := SortedListing(listed, dirs);
  }

  lemma {:induction false} SetOfSnoc(xs: seq<string>, x: string)
    ensures SetOf(xs + [x]) == SetOf(xs) + {x}
  {
    var ys := xs + [x];
    forall y | y in SetOf(xs) + {x} ensures y in SetOf(ys) {
      if y == x {
        assert ys[|xs|] == x;
      } else {
        var i :| 0 <= i < |xs| && xs[i] == y;
        assert ys[i] == y;
      }
    }
  }

  lemma {:induction false} SortedListing(listed: seq<string>, dirs: Dirs) returns (entries: seq<string>)
    requires NoDup(listed) && SetOf(listed) == dirs.Keys
    ensures (forall y | y in listed :: y in dirs) && entries == SortByTime(listed, dirs)
    ensures Listing(entries, dirs)
  {
    forall y | y in listed ensures y in dirs {
      assert y in SetOf(listed);
    }
    entries := SortByTime(listed, dirs);
    SortOrdered(listed, dirs);
    NoDupFromMultiset(listed, entries);
  }

  // There are never more than five, and as many as there were if fewer.
  lemma {:induction false} NewestSize(dirs: Dirs)
    requires DistinctTimes(dirs)
    ensures |Newest(dirs)| == if |dirs| <= MAX_CACHED_REPOS then |dirs| else MAX_CACHED_REPOS
    ensures |dirs| <= MAX_CACHED_REPOS ==> Newest(dirs) == dirs
  {
    var entries := ListingExists(dirs);
    SetOfSize(entries);
    var k := if |entries| <= MAX_CACHED_REPOS then 0 else |entries| - MAX_CACHED_REPOS;
    KeptIsNewest(entries, dirs, k);
    assert k == 0 ==> SetOf(entries[..k]) == {};
  }

  // ---- One call ----

  // The cache after the call, and whether a path was returned.
  function Step(dirs: Dirs, a: Access): (Dirs, bool) {
    if !IsHttpsSource(a.source) then (dirs, false)
    else if a.source in dirs then (dirs[a.source := a.touch], true)
    else if !a.cloneOk then (dirs, false)
    else
      var kept := Newest(dirs[a.source := a.start]);
      (if a.source in kept then kept[a.source := a.touch] else kept, true)
  }

  // Exactly the calls for an http or https source that is cached or can be
  // cloned return a path.
  lemma {:induction false} ServedExactly(dirs: Dirs, a: Access)
    ensures Step(dirs, a).1 <==>
              && ((|a.source| >= 8 && a.source[..8] == "https://") || (|a.source| >= 7 && a.source[..7] == "http://"))
              && (a.source in dirs || a.cloneOk)
  {
  }

  // Whatever the clock does: five directories are kept, or all if there are
  // fewer, and none that goes was modified later than one that stays.
  ghost predicate EvictedTo(before: Dirs, after: Dirs) {
    && (forall x | x in after :: x in before && after[x] == before[x])
    && |after| == (if |before| <= MAX_CACHED_REPOS then |before| else MAX_CACHED_REPOS)
    && (forall x, y | x in before && x !in after && y in after :: before[x] <= before[y])
  }

  ghost predicate MayStep(before: Dirs, a: Access, after: Dirs, returned: bool) {
    if !IsHttpsSource(a.source) || (a.source !in before && !a.cloneOk) then after == before && !returned
    else if a.source in before then after == before[a.source := a.touch] && returned
    else returned && exists kept :: EvictedTo(before[a.source := a.start], kept)
                                    && after == if a.source in kept then kept[a.source := a.touch] else kept
  }

  // The clock has moved past every modification time, and moves on.
  ghost predicate ClockAhead(dirs: Dirs, a: Access) {
    DistinctTimes(dirs) && (forall x | x in dirs :: dirs[x] < a.start) && a.start < a.touch
  }

  lemma {:induction false} KeptIsEvicted(entries: seq<string>, dirs: Dirs, k: nat)
    requires Listing(entries, dirs) && k <= |entries| && |entries| - k == MAX_CACHED_REPOS
    ensures EvictedTo(dirs, dirs - SetOf(entries[..k]))
  {
    var gone := SetOf(entries[..k]);
    assert |dirs - gone| == MAX_CACHED_REPOS && |dirs| == |entries| by {
      SetOfPrefix(entries, k);
      assert (dirs - gone).Keys == SetOf(entries) - gone;
      SetOfSize(entries);
    }
    forall x, y | x in gone && y in dirs && y !in gone ensures x in dirs && dirs[x] <= dirs[y] {
      PrefixIsOlder(entries, dirs, k, x, y);
    }
  }

  lemma {:induction false} PrefixIsOlder(entries: seq<string>, dirs: Dirs, k: nat, x: string, y: string)
    requires Listing(entries, dirs) && k <= |entries|
    requires x in SetOf(entries[..k]) && y in dirs && y !in SetOf(entries[..k])
    ensures x in dirs && dirs[x] <= dirs[y]
  {
    assert y in SetOf(entries);
    forall j | 0 <= j < k ensures entries[j] in SetOf(entries[..k]) {
      assert entries[..k][j] == entries[j];
    }
    var i :| 0 <= i < |entries[..k]| && entries[..k][i] == x;
    var j :| 0 <= j < |entries| && entries[j] == y;
    assert i < j && entries[i] == x;
  }

  class CloneCache {
    var dirs: Dirs

    constructor ()
      ensures dirs == map[]
    {
      dirs := map[];
    }

    method EvictIfNeeded()
      modifies this
      ensures EvictedTo(old(dirs), dirs)
      ensures DistinctTimes(old(dirs)) ==> dirs == Newest(old(dirs))
    {
      var entries := ListDirectories();
      SetOfSize(entries);
      if |entries| <= MAX_CACHED_REPOS {
        if DistinctTimes(dirs) { NewestSize(dirs); }
        return;
      }
      ghost var sorted := SortedListing(entries, dirs);
      assert |multiset(sorted)| == |sorted| && |multiset(entries)| == |entries|;
      DropOldest(SortByTime(entries, dirs));
    }

    // Pop and remove the first entries until five are left.
    method DropOldest(listing: seq<string>)
      requires Listing(listing, dirs) && |listing| > MAX_CACHED_REPOS
      modifies this
      ensures EvictedTo(old(dirs), dirs)
      ensures DistinctTimes(old(dirs)) ==> dirs == Newest(old(dirs))
    {
      var entries := listing;
      ghost var k := 0;
      while |entries| > MAX_CACHED_REPOS
        invariant k <= |listing| && entries == listing[k..] && |entries| >= MAX_CACHED_REPOS
        invariant dirs == old(dirs) - SetOf(listing[..k])
      {
        var oldest := entries[0];
        entries := entries[1..];
        assert listing[..k + 1] == listing[..k] + [oldest];
        SetOfSnoc(listing[..k], oldest);
        dirs := dirs - {oldest};
        k := k + 1;
      }
      KeptIsEvicted(listing, old(dirs), k);
      if DistinctTimes(old(dirs)) { KeptIsNewest(listing, old(dirs), k); }
    }

    // The directories, in whatever order the file system lists them.
    method ListDirectories() returns (entries: seq<string>)
      ensures NoDup(entries) && SetOf(entries) == dirs.Keys
    {
      var todo := dirs.Keys;
      entries := [];
      while todo != {}
        invariant NoDup(entries) && todo <= dirs.Keys && SetOf(entries) == dirs.Keys - todo
        decreases todo
      {
        var x :| x in todo;
        ghost var before := entries;
        entries := entries + [x];
        forall i | 0 <= i < |before| ensures before[i] != x {
          assert before[i] in SetOf(before);
        }
        todo := todo - {x};
        SetOfSnoc(before, x);
      }
    }

    // `refreshed` says that a fetch was attempted; its outcome changes nothing.
    method CloneOrReuse(a: Access) returns (path: Option<string>, refreshed: bool)
      modifies this
      ensures MayStep(old(dirs), a, dirs, path.Some?)
      ensures ClockAhead(old(dirs), a) ==> (dirs, path.Some?) == Step(old(dirs), a)
      ensures path.Some? ==> path.value == a.source
      ensures path.Some? <==> Step(old(dirs), a).1
      ensures refreshed
         <==> IsHttpsSource(a.source) && a.source in old(dirs)
              && a.start - old(dirs)[a.source] > STALE_CLONE_S
    {
      refreshed := false;
      if !IsHttpsSource(a.source) {
        return None, refreshed;
      }
      if a.source !in dirs {
        if !a.cloneOk {
          return None, refreshed;
        }
        dirs := dirs[a.source := a.start];
        EvictIfNeeded();
      } else {
        var age := a.start - dirs[a.source];
        refreshed := age > STALE_CLONE_S;
      }
      if a.source in dirs {
        dirs := dirs[a.source := a.touch];
      }
      path := Some(a.source);
    }
  }

  // ---- Runs ----

  // The sources that calls returned, and the cache they left.
  datatype State = State(dirs: Dirs, served: seq<string>)

  function Apply(s: State, a: Access): State {
    var (dirs, returned) := Step(s.dirs, a);
    State(dirs, if returned then s.served + [a.source] else s.served)
  }

  function Run(accesses: seq<Access>): State {
    if accesses == [] then State(map[], [])
    else Apply(Run(accesses[..|accesses| - 1]), accesses[|accesses| - 1])
  }

  // Calls one after the other on a strictly increasing clock.
  ghost predicate Sequential(accesses: seq<Access>) {
    && (forall i | 0 <= i < |accesses| :: accesses[i].start < accesses[i].touch)
    && (forall i, j | 0 <= i < j < |accesses| :: accesses[i].touch < accesses[j].start)
  }

  // The distinct sources served after the last time x was.
  function ServedAfter(served: seq<string>, x: string): set<string> {
    if served == [] || served[|served| - 1] == x then {}
    else ServedAfter(served[..|served| - 1], x) + {served[|served| - 1]}
  }

  lemma {:induction false} ServedAfterSnoc(served: seq<string>, y: string, x: string)
    ensures ServedAfter(served + [y], x) == if x == y then {} else ServedAfter(served, x) + {y}
  {
    assert (served + [y])[..|served|] == served;
  }

  // The cache holds exactly the sources served with fewer than five distinct
  // others served since, and modification times order them by last use.
  ghost predicate LeastRecentlyUsed(s: State, now: int) {
    && (forall x :: x in s.dirs <==> x in s.served && |ServedAfter(s.served, x)| < MAX_CACHED_REPOS)
    && (forall x | x in s.dirs :: Newer(s.dirs, x) == ServedAfter(s.served, x))
    && (forall x | x in s.dirs :: s.dirs[x] <= now)
    && DistinctTimes(s.dirs)
  }

  // Touching a cached source leaves every other one with fewer than five newer.
  lemma {:induction false} TouchKeepsRoom(dirs: Dirs, x: string, y: string)
    requires DistinctTimes(dirs) && x in dirs && y in dirs && x != y
    requires |Newer(dirs, x)| < MAX_CACHED_REPOS && |Newer(dirs, y)| < MAX_CACHED_REPOS
    ensures |Newer(dirs, y) + {x}| < MAX_CACHED_REPOS
  {
    if x in Newer(dirs, y) {
      assert Newer(dirs, y) + {x} == Newer(dirs, y);
    } else {
      assert dirs[x] < dirs[y];
      assert Newer(dirs, y) + {y} <= Newer(dirs, x);
      SubsetSize(Newer(dirs, y) + {y}, Newer(dirs, x));
    }
  }

  lemma {:induction false} HitMember(s: State, source: string, now: int, x: string)
    requires LeastRecentlyUsed(s, now) && source in s.dirs
    ensures x in s.dirs <==> x in s.served + [source] && |ServedAfter(s.served + [source], x)| < MAX_CACHED_REPOS
  {
    ServedAfterSnoc(s.served, source, x);
    if x != source {
      if x in s.dirs {
        TouchKeepsRoom(s.dirs, source, x);
      } else {
        SubsetSize(ServedAfter(s.served, x), ServedAfter(s.served + [source], x));
      }
    }
  }

  // A directory touched last is newer than every other one.
  lemma {:induction false} NewerTouched(dirs: Dirs, source: string, touch: int, x: string)
    requires (forall y | y in dirs :: dirs[y] < touch) && (x in dirs || x == source)
    ensures Newer(dirs[source := touch], x) == if x == source then {} else Newer(dirs, x) + {source}
  {
    var after := dirs[source := touch];
    forall y | y in after ensures y in Newer(after, x) <==> x != source && (y == source || y in Newer(dirs, x)) {
      assert y != source ==> after[y] == dirs[y];
    }
  }

  lemma {:induction false} HitOrder(s: State, source: string, touch: int, now: int, x: string)
    requires LeastRecentlyUsed(s, now) && now < touch && source in s.dirs && x in s.dirs
    ensures Newer(s.dirs[source := touch], x) == ServedAfter(s.served + [source], x)
  {
    ServedAfterSnoc(s.served, source, x);
    NewerTouched(s.dirs, source, touch, x);
  }

  lemma {:induction false} HitKeeps(s: State, a: Access, now: int)
    requires LeastRecentlyUsed(s, now) && now < a.start < a.touch
    requires IsHttpsSource(a.source) && a.source in s.dirs
    ensures LeastRecentlyUsed(Apply(s, a), a.touch)
  {
    var t := Apply(s, a);
    assert t.dirs == s.dirs[a.source := a.touch] && t.served == s.served + [a.source];
    forall x ensures x in t.dirs <==> x in t.served && |ServedAfter(t.served, x)| < MAX_CACHED_REPOS {
      HitMember(s, a.source, now, x);
    }
    forall x | x in t.dirs ensures Newer(t.dirs, x) == ServedAfter(t.served, x) {
      HitOrder(s, a.source, a.touch, now, x);
    }
  }

  lemma {:induction false} MissKeeps(s: State, a: Access, now: int)
    requires LeastRecentlyUsed(s, now) && now < a.start < a.touch
    requires IsHttpsSource(a.source) && a.source !in s.dirs && a.cloneOk
    ensures LeastRecentlyUsed(Apply(s, a), a.touch)
    ensures a.source in Apply(s, a).dirs
  {
    var t := Apply(s, a);
    var kept := Newest(s.dirs[a.source := a.start]);
    assert a.source in kept by {
      NewCloneIsNewest(s, a, now);
    }
    assert t.dirs == kept[a.source := a.touch] && t.served == s.served + [a.source];
    forall x ensures x in t.dirs <==> x in t.served && |ServedAfter(t.served, x)| < MAX_CACHED_REPOS {
      MissMember(s, a, now, x);
    }
    forall x | x in t.dirs ensures Newer(t.dirs, x) == ServedAfter(t.served, x) {
      MissOrder(s, a, now, x);
    }
  }

  lemma {:induction false} MissMember(s: State, a: Access, now: int, x: string)
    requires LeastRecentlyUsed(s, now) && now < a.start && a.source !in s.dirs
    ensures x in Newest(s.dirs[a.source := a.start])
       <==> x in s.served + [a.source] && |ServedAfter(s.served + [a.source], x)| < MAX_CACHED_REPOS
  {
    ServedAfterSnoc(s.served, a.source, x);
    NewCloneIsNewest(s, a, now);
    if x != a.source && x !in s.dirs {
      SubsetSize(ServedAfter(s.served, x), ServedAfter(s.served + [a.source], x));
    }
  }

  lemma {:induction false} MissOrder(s: State, a: Access, now: int, x: string)
    requires LeastRecentlyUsed(s, now) && now < a.start < a.touch && a.source !in s.dirs
    requires x in Newest(s.dirs[a.source := a.start])
    ensures Newer(Newest(s.dirs[a.source := a.start])[a.source := a.touch], x) == ServedAfter(s.served + [a.source], x)
  {
    var grown := s.dirs[a.source := a.start];
    var kept := Newest(grown);
    ServedAfterSnoc(s.served, a.source, x);
    assert a.source in kept && (x != a.source ==> Newer(grown, x) == ServedAfter(s.served, x) + {a.source}) by {
      NewCloneIsNewest(s, a, now);
    }
    KeptNewer(grown, x);
    assert forall y | y in kept :: y == a.source || kept[y] <= now;
    NewerTouched(kept, a.source, a.touch, x);
  }

  lemma {:induction false} NewCloneIsNewest(s: State, a: Access, now: int)
    requires LeastRecentlyUsed(s, now) && now < a.start && a.source !in s.dirs
    ensures
      var grown := s.dirs[a.source := a.start];
      DistinctTimes(grown) && a.source in Newest(grown)
      && forall x | x in s.dirs :: Newer(grown, x) == ServedAfter(s.served, x) + {a.source}
  {
    NewerTouched(s.dirs, a.source, a.start, a.source);
    forall x | x in s.dirs ensures Newer(s.dirs[a.source := a.start], x) == ServedAfter(s.served, x) + {a.source} {
      NewerTouched(s.dirs, a.source, a.start, x);
    }
  }

  // Whatever is newer than a kept source is kept.
  lemma {:induction false} KeptNewer(dirs: Dirs, x: string)
    requires x in Newest(dirs)
    ensures Newer(Newest(dirs), x) == Newer(dirs, x)
  {
    forall y | y in Newer(dirs, x) ensures y in Newest(dirs) {
      SubsetSize(Newer(dirs, y), Newer(dirs, x));
    }
  }

  lemma {:induction false} StepKeeps(s: State, a: Access, now: int)
    requires LeastRecentlyUsed(s, now) && now < a.start < a.touch
    ensures LeastRecentlyUsed(Apply(s, a), a.touch)
  {
    if IsHttpsSource(a.source) && a.source in s.dirs {
      HitKeeps(s, a, now);
    } else if IsHttpsSource(a.source) && a.cloneOk {
      MissKeeps(s, a, now);
    }
  }

  // After any sequential run from an empty cache.
  lemma {:induction false} RunIsLeastRecentlyUsed(accesses: seq<Access>, now: int)
    requires Sequential(accesses) && forall i | 0 <= i < |accesses| :: accesses[i].touch <= now
    ensures LeastRecentlyUsed(Run(accesses), now)
    decreases |accesses|
  {
    if accesses != [] {
      var n := |accesses| - 1;
      var rest, a := accesses[..n], accesses[n];
      RunIsLeastRecentlyUsed(rest, a.start - 1);
      StepKeeps(Run(rest), a, a.start - 1);
    }
  }

  // The cached sources are the five most recently served ones, or all of them.
  lemma {:induction false} CacheSize(s: State, now: int)
    requires LeastRecentlyUsed(s, now)
    ensures |s.dirs| <= MAX_CACHED_REPOS
    ensures |s.dirs| < MAX_CACHED_REPOS ==> s.dirs.Keys == SetOf(s.served)
  {
    assert Newest(s.dirs) == s.dirs;
    NewestSize(s.dirs);
    if |s.dirs| < MAX_CACHED_REPOS {
      forall x | x in SetOf(s.served) ensures x in s.dirs {
        AllServedCached(s, x, |s.served|);
      }
    }
  }

  // With room left, every source served so far is cached: the sources served
  // after it in the last n calls are all cached, so they are fewer than five.
  lemma {:induction false} AllServedCached(s: State, x: string, n: nat)
    requires (forall y :: y in s.dirs <==> y in s.served && |ServedAfter(s.served, y)| < MAX_CACHED_REPOS)
    requires |s.dirs| < MAX_CACHED_REPOS && n <= |s.served| && x in s.served[|s.served| - n..]
    ensures x in s.dirs
    decreases n
  {
    var i := LastServed(s.served, x);
    assert i >= |s.served| - n by {
      var j :| 0 <= j < n && s.served[|s.served| - n..][j] == x;
      assert s.served[|s.served| - n + j] == x;
    }
    forall y | y in ServedAfter(s.served, x) ensures y in s.dirs {
      var k :| i < k < |s.served| && s.served[k] == y;
      assert s.served[k..][0] == y;
      AllServedCached(s, y, |s.served| - k);
    }
    SubsetSize(ServedAfter(s.served, x), s.dirs.Keys);
  }

  lemma {:induction false} LastServed(served: seq<string>, x: string) returns (i: nat)
    requires x in served
    ensures i < |served| && served[i] == x && x !in served[i + 1..]
    ensures ServedAfter(served, x) == SetOf(served[i + 1..])
    ensures forall j | 0 <= j < |served| && served[j] == x :: j <= i
    ensures forall y | y in ServedAfter(served, x) :: exists k :: i < k < |served| && served[k] == y
  {
    i := |served| - 1;
    assert served[|served|..] == [];
    assert served[..|served|] == served;
    while served[i] != x
      invariant i < |served| && x in served[..i + 1] && x !in served[i + 1..]
      invariant ServedAfter(served, x) == ServedAfter(served[..i + 1], x) + SetOf(served[i + 1..])
      decreases i
    {
      OneFurtherBack(served, i, x);
      i := i - 1;
    }
    PositionsAfter(served, i);
  }

  lemma {:induction false} OneFurtherBack(served: seq<string>, i: nat, x: string)
    requires i < |served| && served[i] != x && x in served[..i + 1] && x !in served[i + 1..]
    ensures i > 0 && x in served[..i] && x !in served[i..]
    ensures ServedAfter(served[..i + 1], x) + SetOf(served[i + 1..]) == ServedAfter(served[..i], x) + SetOf(served[i..])
  {
    var init := served[..i + 1];
    assert init == served[..i] + [served[i]] && init[..i] == served[..i];
    assert served[i..] == [served[i]] + served[i + 1..];
    SetOfCons(served[i], served[i + 1..]);
  }

  lemma {:induction false} PositionsAfter(served: seq<string>, i: nat)
    requires i < |served|
    ensures forall y {:trigger y in SetOf(served[i + 1..])} | y in SetOf(served[i + 1..]) ::
              exists k :: i < k < |served| && served[k] == y
    ensures forall j | i < j < |served| :: served[j] in served[i + 1..]
  {
    var later := served[i + 1..];
    forall y {:trigger y in SetOf(later)} | y in SetOf(later) ensures exists k :: i < k < |served| && served[k] == y {
      var m :| 0 <= m < |later| && later[m] == y;
      assert served[i + 1 + m] == y;
    }
    forall j | i < j < |served| ensures served[j] in later {
      assert later[j - i - 1] == served[j];
    }
  }

  lemma {:induction false} SetOfCons(x: string, xs: seq<string>)
    ensures SetOf([x] + xs) == {x} + SetOf(xs)
  {
    var ys := [x] + xs;
    forall y | y in {x} + SetOf(xs) ensures y in SetOf(ys) {
      if y == x {
        assert ys[0] == x;
      } else {
        var i :| 0 <= i < |xs| && xs[i] == y;
        assert ys[i + 1] == y;
      }
    }
  }

  // A hit evicts nothing, and no call evicts the source it returns.
  lemma {:induction false} OwnSourceStays(s: State, a: Access, now: int)
    requires LeastRecentlyUsed(s, now) && now < a.start < a.touch
    ensures a.source in s.dirs || !Step(s.dirs, a).1 ==> Apply(s, a).dirs.Keys == s.dirs.Keys
    ensures Step(s.dirs, a).1 ==> a.source in Apply(s, a).dirs && Apply(s, a).dirs[a.source] == a.touch
  {
    if IsHttpsSource(a.source) && a.source !in s.dirs && a.cloneOk {
      MissKeeps(s, a, now);
    }
  }

  lemma {:induction false} GrownDrops(s: State, a: Access, now: int, x: string)
    requires LeastRecentlyUsed(s, now) && now < a.start && a.source !in s.dirs
    requires x in s.dirs && x !in Newest(s.dirs[a.source := a.start])
    ensures Newest(s.dirs[a.source := a.start]).Keys == s.dirs.Keys - {x} + {a.source} && |s.dirs| == MAX_CACHED_REPOS
  {
    var grown := s.dirs[a.source := a.start];
    assert |s.dirs| <= MAX_CACHED_REPOS by {
      CacheSize(s, now);
    }
    assert grown.Keys == s.dirs.Keys + {a.source};
    assert a.source in Newest(grown)
        && |Newest(grown)| == (if |grown| <= MAX_CACHED_REPOS then |grown| else MAX_CACHED_REPOS)
        && (|grown| <= MAX_CACHED_REPOS ==> Newest(grown) == grown) by {
      NewCloneIsNewest(s, a, now);
      NewestSize(grown);
    }
    DroppedOne(grown.Keys, Newest(grown).Keys, x);
  }

  // A miss evicts at most one source, and then the one used longest ago.
  lemma {:induction false} MissEvictsOldest(s: State, a: Access, now: int, x: string)
    requires LeastRecentlyUsed(s, now) && now < a.start < a.touch
    requires x in s.dirs && x !in Apply(s, a).dirs
    ensures Apply(s, a).dirs.Keys == s.dirs.Keys - {x} + {a.source}
    ensures |s.dirs| == MAX_CACHED_REPOS && forall y | y in s.dirs && y != x :: s.dirs[x] < s.dirs[y]
  {
    var grown := s.dirs[a.source := a.start];
    assert a.source !in s.dirs;
    GrownDrops(s, a, now, x);
    forall y | y in s.dirs && y != x ensures s.dirs[x] < s.dirs[y] {
      OldestDropped(s.dirs, grown, a.source, a.start, x, y);
    }
  }

  lemma {:induction false} OldestDropped(dirs: Dirs, grown: Dirs, source: string, start: int, x: string, y: string)
    requires source !in dirs && grown == dirs[source := start] && DistinctTimes(dirs) && x != y
    requires x in dirs && x !in Newest(grown) && y in dirs && y in Newest(grown)
    ensures dirs[x] < dirs[y]
  {
    if dirs[x] >= dirs[y] {
      assert Newer(grown, x) <= Newer(grown, y);
      SubsetSize(Newer(grown, x), Newer(grown, y));
    }
  }

  lemma {:induction false} DroppedOne(big: set<string>, small: set<string>, x: string)
    requires small <= big && |big| <= |small| + 1 && x in big && x !in small
    ensures small == big - {x} && |big| == |small| + 1
  {
    var gone := big - small;
    assert big == small + gone;
    assert gone == {x} + (gone - {x});
  }
}
