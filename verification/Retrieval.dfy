// Which chunks a search returns: the best score per chunk over all queries,
// best first, as many as the token budget takes.

module Retrieval {
  import opened Chunks

  const DISTANCE_FLOOR: real := 1.5

  // A row of the vector search; a distance may be missing.
  datatype Row = Row(id: string, tokenCount: nat, distance: Option<real>)

  datatype RetrievedChunk = RetrievedChunk(id: string, tokenCount: nat, score: real)

  // ---- Hits ----

  function Score(distance: real): (r: real)
    ensures distance <= 2.0 ==> distance == 2.0 - 2.0 * r
    ensures distance >= 2.0 ==> r == 0.0
  {
    if 1.0 - distance / 2.0 > 0.0 then 1.0 - distance / 2.0 else 0.0
  }

  predicate Near(row: Row) {
    row.distance.Some? && row.distance.value <= DISTANCE_FLOOR
  }

  function Hit(row: Row): RetrievedChunk
    requires Near(row)
  {
    RetrievedChunk(row.id, row.tokenCount, Score(row.distance.value))
  }

  // The rows of one query near enough, scored.
  function HitsOf(rows: seq<Row>): seq<RetrievedChunk> {
    if rows == [] then []
    else HitsOf(rows[..|rows| - 1]) + if Near(rows[|rows| - 1]) then [Hit(rows[|rows| - 1])] else []
  }

  // Those of all queries, in the order they come in.
  function AllHits(results: seq<seq<Row>>): seq<RetrievedChunk> {
    if results == [] then [] else AllHits(results[..|results| - 1]) + HitsOf(results[|results| - 1])
  }

  // ---- Best score per chunk ----

  // hits[k] is the first hit of its chunk with the chunk's best score.
  ghost predicate IsBest(hits: seq<RetrievedChunk>, k: int) {
    && 0 <= k < |hits|
    && (forall j | 0 <= j < |hits| && hits[j].id == hits[k].id :: hits[j].score <= hits[k].score)
    && (forall j | 0 <= j < k && hits[j].id == hits[k].id :: hits[j].score < hits[k].score)
  }

  // The first hit of chunk a comes before any of chunk b.
  ghost predicate SeenFirst(hits: seq<RetrievedChunk>, a: string, b: string) {
    exists k :: FirstSight(hits, k, a, b)
  }

  ghost predicate FirstSight(hits: seq<RetrievedChunk>, k: int, a: string, b: string) {
    0 <= k < |hits| && hits[k].id == a && forall j | 0 <= j <= k :: hits[j].id != b
  }

  // `best` is a dictionary in insertion order: `order` lists its keys, those
  // seen first in front.
  ghost predicate BestPerChunk(hits: seq<RetrievedChunk>, best: map<string, RetrievedChunk>, order: seq<string>) {
    && (forall i, j | 0 <= i < j < |order| :: order[i] != order[j] && SeenFirst(hits, order[i], order[j]))
    && (forall id :: id in order <==> id in best)
    && (forall id | id in best :: best[id].id == id && exists k :: IsBest(hits, k) && hits[k] == best[id])
    && (forall k | 0 <= k < |hits| :: hits[k].id in best)
  }

  lemma {:induction false} BestKept(hits: seq<RetrievedChunk>, best: map<string, RetrievedChunk>, order: seq<string>,
                                    hit: RetrievedChunk, id: string)
    requires BestPerChunk(hits, best, order) && id in best && (id != hit.id || hit.score <= best[id].score)
    ensures best[id].id == id && exists k :: IsBest(hits + [hit], k) && (hits + [hit])[k] == best[id]
  {
    var k :| IsBest(hits, k) && hits[k] == best[id];
    assert IsBest(hits + [hit], k);
  }

  // The steps of the inner loop: a hit that is no better than the known one,
  lemma {:induction false} WorseHit(hits: seq<RetrievedChunk>, best: map<string, RetrievedChunk>, order: seq<string>,
                                    hit: RetrievedChunk)
    requires BestPerChunk(hits, best, order) && hit.id in best && hit.score <= best[hit.id].score
    ensures BestPerChunk(hits + [hit], best, order)
  {
    SeenKept(hits, hit, order);
    forall id | id in best
        ensures best[id].id == id && exists k :: IsBest(hits + [hit], k) && (hits + [hit])[k] == best[id] {
      BestKept(hits, best, order, hit, id);
    }
  }

  ghost predicate InSight(hits: seq<RetrievedChunk>, order: seq<string>) {
    forall i, j | 0 <= i < j < |order| :: SeenFirst(hits, order[i], order[j])
  }

  lemma {:induction false} SeenKept(hits: seq<RetrievedChunk>, hit: RetrievedChunk, order: seq<string>)
    requires InSight(hits, order)
    ensures InSight(hits + [hit], order)
  {
    forall i, j | 0 <= i < j < |order| ensures SeenFirst(hits + [hit], order[i], order[j]) {
      var k :| FirstSight(hits, k, order[i], order[j]);
      assert FirstSight(hits + [hit], k, order[i], order[j]);
    }
  }

  lemma {:induction false} SeenNew(hits: seq<RetrievedChunk>, best: map<string, RetrievedChunk>, order: seq<string>,
                                   hit: RetrievedChunk)
    requires BestPerChunk(hits, best, order) && hit.id !in best
    ensures InSight(hits + [hit], order + [hit.id])
  {
    SeenKept(hits, hit, order);
    forall i | 0 <= i < |order| ensures SeenFirst(hits + [hit], order[i], hit.id) {
      assert order[i] in best;
      var k :| IsBest(hits, k) && hits[k] == best[order[i]];
      assert FirstSight(hits + [hit], k, order[i], hit.id);
    }
  }

  // and one that is better, or the first of its chunk.
  lemma {:induction false} BetterHit(hits: seq<RetrievedChunk>, best: map<string, RetrievedChunk>, order: seq<string>,
                                     hit: RetrievedChunk)
    requires BestPerChunk(hits, best, order) && (hit.id in best ==> hit.score > best[hit.id].score)
    ensures BestPerChunk(hits + [hit], best[hit.id := hit], if hit.id in best then order else order + [hit.id])
  {
    var better := best[hit.id := hit];
    forall id | id in better
        ensures better[id].id == id && exists k :: IsBest(hits + [hit], k) && (hits + [hit])[k] == better[id] {
      if id == hit.id {
        assert (hits + [hit])[|hits|] == hit;
      } else {
        BestKept(hits, best, order, hit, id);
      }
    }
    if hit.id in best {
      SeenKept(hits, hit, order);
    } else {
      SeenNew(hits, best, order, hit);
    }
  }

  method CollectBest(results: seq<seq<Row>>) returns (best: map<string, RetrievedChunk>, order: seq<string>)
    ensures BestPerChunk(AllHits(results), best, order)
  {
    best, order := map[], [];
    for i := 0 to |results|
      invariant BestPerChunk(AllHits(results[..i]), best, order)
    {
      var rows := results[i];
      ghost var before := AllHits(results[..i]);
      assert before + HitsOf(rows[..0]) == before;
      for j := 0 to |rows|
        invariant BestPerChunk(before + HitsOf(rows[..j]), best, order)
      {
        var row := rows[j];
        assert rows[..j + 1][..j] == rows[..j];
        if row.distance.None? || row.distance.value > DISTANCE_FLOOR {
          assert HitsOf(rows[..j + 1]) == HitsOf(rows[..j]);
          continue;
        }
        var hit := RetrievedChunk(row.id, row.tokenCount, Score(row.distance.value));
        assert before + HitsOf(rows[..j + 1]) == before + HitsOf(rows[..j]) + [hit];
        if row.id !in best {
          BetterHit(before + HitsOf(rows[..j]), best, order, hit);
          order := order + [row.id];
          best := best[row.id := hit];
        } else if hit.score > best[row.id].score {
          BetterHit(before + HitsOf(rows[..j]), best, order, hit);
          best := best[row.id := hit];
        } else {
          WorseHit(before + HitsOf(rows[..j]), best, order, hit);
        }
      }
      assert rows[..|rows|] == rows;
      assert results[..i + 1][..i] == results[..i];
    }
    assert results[..|results|] == results;
  }

  // best.values()
  function Values(best: map<string, RetrievedChunk>, order: seq<string>): seq<RetrievedChunk>
    requires forall id | id in order :: id in best
  {
    seq(|order|, i requires 0 <= i < |order| => best[order[i]])
  }

  // ---- Sorting by score ----

  function Insert(c: RetrievedChunk, cs: seq<RetrievedChunk>): (r: seq<RetrievedChunk>)
    ensures multiset(r) == multiset{c} + multiset(cs)
  {
    if cs == [] || c.score >= cs[0].score then [c] + cs
    else
      assert cs == [cs[0]] + cs[1..];
      [cs[0]] + Insert(c, cs[1..])
  }

  // sorted(key=score, reverse=True): equal scores keep their order
  function SortByScore(cs: seq<RetrievedChunk>): (r: seq<RetrievedChunk>)
    ensures multiset(r) == multiset(cs)
  {
    if cs == [] then []
    else
      assert cs == [cs[0]] + cs[1..];
      Insert(cs[0], SortByScore(cs[1..]))
  }

  ghost predicate NonIncreasing(cs: seq<RetrievedChunk>) {
    forall i, j | 0 <= i < j < |cs| :: cs[i].score >= cs[j].score
  }

  // x goes before y: a better score, or the same and seen first.
  ghost predicate Before(hits: seq<RetrievedChunk>, x: RetrievedChunk, y: RetrievedChunk) {
    x.score > y.score || (x.score == y.score && SeenFirst(hits, x.id, y.id))
  }

  ghost predicate Ranked(hits: seq<RetrievedChunk>, cs: seq<RetrievedChunk>) {
    forall i, j | 0 <= i < j < |cs| :: Before(hits, cs[i], cs[j])
  }

  lemma {:induction false} InsertRanked(hits: seq<RetrievedChunk>, c: RetrievedChunk, cs: seq<RetrievedChunk>)
    requires Ranked(hits, cs) && forall x | x in cs :: SeenFirst(hits, c.id, x.id)
    ensures Ranked(hits, Insert(c, cs))
  {
    if cs == [] || c.score >= cs[0].score {
      forall x | x in cs ensures Before(hits, c, x) {
        var i :| 0 <= i < |cs| && cs[i] == x;
        assert i > 0 ==> Before(hits, cs[0], cs[i]);
      }
    } else {
      var rest := Insert(c, cs[1..]);
      InsertRanked(hits, c, cs[1..]);
      forall x | x in rest ensures Before(hits, cs[0], x) {
        assert x in multiset(rest);
        if x != c {
          var i :| 0 <= i < |cs[1..]| && cs[1..][i] == x;
          assert Before(hits, cs[0], cs[i + 1]);
        }
      }
    }
  }

  // Sorting what is in order of first sight ranks it.
  lemma {:induction false} SortedRanked(hits: seq<RetrievedChunk>, cs: seq<RetrievedChunk>)
    requires forall i, j | 0 <= i < j < |cs| :: SeenFirst(hits, cs[i].id, cs[j].id)
    ensures Ranked(hits, SortByScore(cs))
  {
    if cs != [] {
      var rest := SortByScore(cs[1..]);
      SortedRanked(hits, cs[1..]);
      forall x | x in rest ensures SeenFirst(hits, cs[0].id, x.id) {
        assert x in multiset(rest);
        var i :| 0 <= i < |cs[1..]| && cs[1..][i] == x;
        assert cs[i + 1] == x;
      }
      InsertRanked(hits, cs[0], rest);
    }
  }

  // The chunks of one score, in order.
  function WithScore(cs: seq<RetrievedChunk>, score: real): seq<RetrievedChunk> {
    if cs == [] then [] else (if cs[0].score == score then [cs[0]] else []) + WithScore(cs[1..], score)
  }

  lemma {:induction false} InsertSorted(c: RetrievedChunk, cs: seq<RetrievedChunk>)
    requires NonIncreasing(cs)
    ensures NonIncreasing(Insert(c, cs))
  {
    if cs != [] && c.score < cs[0].score {
      var rest := Insert(c, cs[1..]);
      InsertSorted(c, cs[1..]);
      forall x | x in rest ensures cs[0].score >= x.score {
        assert x in multiset(rest);
        assert x == c || x in cs[1..];
      }
    }
  }

  lemma {:induction false} InsertStable(c: RetrievedChunk, cs: seq<RetrievedChunk>, score: real)
    ensures WithScore(Insert(c, cs), score) == (if c.score == score then [c] else []) + WithScore(cs, score)
  {
    if cs == [] || c.score >= cs[0].score {
      assert ([c] + cs)[1..] == cs;
    } else {
      var rest := Insert(c, cs[1..]);
      InsertStable(c, cs[1..], score);
      assert ([cs[0]] + rest)[1..] == rest;
    }
  }

  // Sorted by score, best first, and stable.
  lemma {:induction false} SortedByScore(cs: seq<RetrievedChunk>, score: real)
    ensures NonIncreasing(SortByScore(cs))
    ensures WithScore(SortByScore(cs), score) == WithScore(cs, score)
  {
    if cs != [] {
      SortedByScore(cs[1..], score);
      InsertSorted(cs[0], SortByScore(cs[1..]));
      InsertStable(cs[0], SortByScore(cs[1..]), score);
    }
  }

  // ---- Trimming to the budget ----

  function Tokens(cs: seq<RetrievedChunk>): nat {
    if cs == [] then 0 else cs[0].tokenCount + Tokens(cs[1..])
  }

  // Whatever still fits is taken, after `used` tokens.
  function Trim(cs: seq<RetrievedChunk>, used: nat, budget: int): seq<RetrievedChunk>
    decreases |cs|
  {
    if cs == [] then []
    else if used + cs[0].tokenCount > budget then Trim(cs[1..], used, budget)
    else [cs[0]] + Trim(cs[1..], used + cs[0].tokenCount, budget)
  }

  method TrimToBudget(candidates: seq<RetrievedChunk>, budget: int)
    returns (selected: seq<RetrievedChunk>, tokenTotal: nat)
    ensures selected == Trim(candidates, 0, budget) && tokenTotal == Tokens(selected)
  {
    selected, tokenTotal := [], 0;
    assert candidates[0..] == candidates;
    for i := 0 to |candidates|
      invariant selected + Trim(candidates[i..], tokenTotal, budget) == Trim(candidates, 0, budget)
      invariant tokenTotal == Tokens(selected)
    {
      var c := candidates[i];
      assert candidates[i..][1..] == candidates[i + 1..];
      if tokenTotal + c.tokenCount > budget {
        continue;
      }
      TokensSnoc(selected, c);
      selected := selected + [c];
      tokenTotal := tokenTotal + c.tokenCount;
    }
    assert selected + [] == selected;
  }

  lemma {:induction false} TokensSnoc(cs: seq<RetrievedChunk>, c: RetrievedChunk)
    ensures Tokens(cs + [c]) == Tokens(cs) + c.tokenCount
  {
    if cs == [] {
      assert [c][1..] == [];
    } else {
      TokensSnoc(cs[1..], c);
      assert (cs + [c])[1..] == cs[1..] + [c];
    }
  }

  // Tokens of the chunks that go before c.
  ghost function TokensBefore(hits: seq<RetrievedChunk>, cs: seq<RetrievedChunk>, c: RetrievedChunk): nat {
    if cs == [] then 0 else (if Before(hits, cs[0], c) then cs[0].tokenCount else 0) + TokensBefore(hits, cs[1..], c)
  }

  // The selection stays in the budget,
  lemma {:induction false} TrimFits(cs: seq<RetrievedChunk>, used: nat, budget: int)
    ensures Trim(cs, used, budget) != [] ==> used + Tokens(Trim(cs, used, budget)) <= budget
    decreases |cs|
  {
    if cs != [] {
      var used' := used + cs[0].tokenCount;
      if used' > budget {
        TrimFits(cs[1..], used, budget);
      } else {
        TrimFits(cs[1..], used', budget);
        assert ([cs[0]] + Trim(cs[1..], used', budget))[1..] == Trim(cs[1..], used', budget);
      }
    }
  }

  // and a chunk is left out only if it does not fit on top of the selected ones
  // that go before it.
  lemma {:induction false} TrimRejects(hits: seq<RetrievedChunk>, cs: seq<RetrievedChunk>, used: nat, budget: int,
                                       c: RetrievedChunk)
    requires Ranked(hits, cs) && c in cs && c !in Trim(cs, used, budget)
    ensures used + TokensBefore(hits, Trim(cs, used, budget), c) + c.tokenCount > budget
    decreases |cs|
  {
    var used' := used + cs[0].tokenCount;
    var i :| 0 <= i < |cs| && cs[i] == c;
    assert i > 0 ==> cs[1..][i - 1] == c && Before(hits, cs[0], c);
    if used' <= budget {
      var kept := Trim(cs[1..], used', budget);
      assert ([cs[0]] + kept)[1..] == kept && cs[0] == ([cs[0]] + kept)[0];
      assert c !in kept && i > 0;
      TrimRejects(hits, cs[1..], used', budget, c);
    } else if i > 0 {
      TrimRejects(hits, cs[1..], used, budget, c);
    }
  }

  // It is taken from the candidates in their order.
  lemma {:induction false} TrimOrder(hits: seq<RetrievedChunk>, cs: seq<RetrievedChunk>, used: nat, budget: int)
    requires Distinct(cs) && Ranked(hits, cs)
    ensures Distinct(Trim(cs, used, budget)) && Ranked(hits, Trim(cs, used, budget))
    ensures forall c | c in Trim(cs, used, budget) :: c in cs
    decreases |cs|
  {
    if cs != [] {
      var rest := cs[1..];
      var used' := used + cs[0].tokenCount;
      TrimOrder(hits, rest, if used' > budget then used else used', budget);
      var kept := Trim(rest, if used' > budget then used else used', budget);
      forall c | c in kept ensures c in cs && c.id != cs[0].id && Before(hits, cs[0], c) {
        var i :| 0 <= i < |rest| && rest[i] == c;
        assert cs[i + 1] == c;
      }
    }
  }

  ghost predicate Distinct(cs: seq<RetrievedChunk>) {
    forall i, j | 0 <= i < j < |cs| :: cs[i].id != cs[j].id
  }

  // ---- The search ----

  datatype RetrievalResult = RetrievalResult(selected: seq<RetrievedChunk>, chunksFetched: nat, chunksUsed: nat,
      trimmed: nat, empty: bool)

  // Some hit is the chunk's best one.
  ghost predicate Best(hits: seq<RetrievedChunk>, c: RetrievedChunk) {
    exists k :: IsBest(hits, k) && hits[k] == c
  }

  // What a search should return for these hits: distinct chunks at their best
  // scores, best first and those of one score as they were first seen, in the
  // budget, and greedily as many as fit: whatever is left out does not fit on
  // top of what goes before it.
  ghost predicate Selection(hits: seq<RetrievedChunk>, budget: int, selected: seq<RetrievedChunk>) {
    && Distinct(selected)
    && (forall c | c in selected :: Best(hits, c))
    && Ranked(hits, selected)
    && (selected != [] ==> Tokens(selected) <= budget)
    && (forall c | Best(hits, c) && c !in selected :: TokensBefore(hits, selected, c) + c.tokenCount > budget)
  }

  // ---- The same about rows and distances ----

  // The rows of all queries, one after the other.
  function Rows(results: seq<seq<Row>>): seq<Row> {
    if results == [] then [] else Rows(results[..|results| - 1]) + results[|results| - 1]
  }

  predicate NearAt(rows: seq<Row>, p: int) {
    0 <= p < |rows| && rows[p].distance.Some? && rows[p].distance.value <= 1.5
  }

  // Row p is near, and the first of the nearest rows of its chunk.
  ghost predicate Closest(rows: seq<Row>, p: int) {
    && NearAt(rows, p)
    && (forall q | NearAt(rows, q) && rows[q].id == rows[p].id :: rows[p].distance.value <= rows[q].distance.value)
    && (forall q | 0 <= q < p && NearAt(rows, q) && rows[q].id == rows[p].id ::
          rows[p].distance.value < rows[q].distance.value)
  }

  // The first near row of chunk a comes before any of chunk b.
  ghost predicate FirstRow(rows: seq<Row>, p: int, a: string, b: string) {
    NearAt(rows, p) && rows[p].id == a && forall q | 0 <= q <= p && NearAt(rows, q) :: rows[q].id != b
  }

  ghost predicate RowSeenFirst(rows: seq<Row>, a: string, b: string) {
    exists p :: FirstRow(rows, p, a, b)
  }

  // c stands for row p: its chunk, its tokens, and 1 - distance / 2.
  ghost predicate StandsFor(rows: seq<Row>, p: int, c: RetrievedChunk) {
    Closest(rows, p) && c == RetrievedChunk(rows[p].id, rows[p].tokenCount, 1.0 - rows[p].distance.value / 2.0)
  }

  // c goes before a chunk b at distance d: it is nearer, or as near and seen first.
  ghost predicate Ahead(rows: seq<Row>, c: RetrievedChunk, b: string, d: real) {
    2.0 - 2.0 * c.score < d || (2.0 - 2.0 * c.score == d && RowSeenFirst(rows, c.id, b))
  }

  ghost function TokensAhead(rows: seq<Row>, cs: seq<RetrievedChunk>, b: string, d: real): nat {
    if cs == [] then 0
    else (if Ahead(rows, cs[0], b, d) then cs[0].tokenCount else 0) + TokensAhead(rows, cs[1..], b, d)
  }

  // Chunks with a row at most 1.5 away, each at its smallest distance over all
  // queries, nearest first and equally near ones as they were first seen, in
  // the budget; whatever is left out does not fit on top of what goes before.
  ghost predicate NearestFit(rows: seq<Row>, budget: int, selected: seq<RetrievedChunk>) {
    && Distinct(selected)
    && (forall c | c in selected :: exists p :: StandsFor(rows, p, c))
    && (forall i, j | 0 <= i < j < |selected| ::
          Ahead(rows, selected[i], selected[j].id, 2.0 - 2.0 * selected[j].score))
    && (selected != [] ==> Tokens(selected) <= budget)
    && (forall p | Closest(rows, p) && (forall c | c in selected :: c.id != rows[p].id) ::
          TokensAhead(rows, selected, rows[p].id, rows[p].distance.value) + rows[p].tokenCount > budget)
  }

  lemma {:induction false} HitsConcat(a: seq<Row>, b: seq<Row>)
    ensures HitsOf(a + b) == HitsOf(a) + HitsOf(b)
    decreases |b|
  {
    if b == [] {
      assert a + b == a;
    } else {
      var n := |b| - 1;
      HitsConcat(a, b[..n]);
      assert (a + b)[..|a + b| - 1] == a + b[..n] && (a + b)[|a + b| - 1] == b[n];
    }
  }

  lemma {:induction false} AllHitsOfRows(results: seq<seq<Row>>)
    ensures AllHits(results) == HitsOf(Rows(results))
  {
    if results != [] {
      AllHitsOfRows(results[..|results| - 1]);
      HitsConcat(Rows(results[..|results| - 1]), results[|results| - 1]);
    }
  }

  // The hits before row p; the number of row p's own hit if it is near.
  function HitNumber(rows: seq<Row>, p: nat): nat
    requires p <= |rows|
  {
    |HitsOf(rows[..p])|
  }

  lemma {:induction false} HitAt(rows: seq<Row>, p: nat)
    requires NearAt(rows, p)
    ensures
      var k, hits := HitNumber(rows, p), HitsOf(rows);
      k < |hits| && hits[k] == RetrievedChunk(rows[p].id, rows[p].tokenCount, 1.0 - rows[p].distance.value / 2.0)
    ensures HitNumber(rows, p + 1) == HitNumber(rows, p) + 1
  {
    assert rows == rows[..p + 1] + rows[p + 1..] && rows[..p + 1] == rows[..p] + [rows[p]];
    HitsConcat(rows[..p + 1], rows[p + 1..]);
    assert rows[..p + 1][..p] == rows[..p];
  }

  lemma {:induction false} HitNumbersGrow(rows: seq<Row>, p: nat, q: nat)
    requires p <= q <= |rows|
    ensures HitNumber(rows, p) <= HitNumber(rows, q)
    ensures p < q && NearAt(rows, p) ==> HitNumber(rows, p) < HitNumber(rows, q)
  {
    assert rows[..q] == rows[..p] + rows[p..q];
    HitsConcat(rows[..p], rows[p..q]);
    if p < q && NearAt(rows, p) {
      HitAt(rows, p);
      assert rows[..q] == rows[..p + 1] + rows[p + 1..q];
      HitsConcat(rows[..p + 1], rows[p + 1..q]);
    }
  }

  lemma {:induction false} RowOfHit(rows: seq<Row>, k: nat) returns (p: nat)
    requires k < |HitsOf(rows)|
    ensures NearAt(rows, p) && HitNumber(rows, p) == k
    decreases |rows|
  {
    var front, n := rows[..|rows| - 1], |rows| - 1;
    if k < |HitsOf(front)| {
      p := RowOfHit(front, k);
      assert front[..p] == rows[..p];
    } else {
      p := n;
    }
  }

  // The best hit of a chunk is that of its closest row.
  lemma {:induction false} BestIsClosest(rows: seq<Row>, p: nat)
    requires NearAt(rows, p)
    ensures IsBest(HitsOf(rows), HitNumber(rows, p)) <==> Closest(rows, p)
  {
    var hits, k := HitsOf(rows), HitNumber(rows, p);
    HitAt(rows, p);
    if IsBest(hits, k) {
      forall q | NearAt(rows, q) && rows[q].id == rows[p].id
        ensures rows[p].distance.value <= rows[q].distance.value
        ensures q < p ==> rows[p].distance.value < rows[q].distance.value
      {
        HitAt(rows, q);
        if q < p {
          HitNumbersGrow(rows, q, p);
        }
      }
    }
    if Closest(rows, p) {
      forall j | 0 <= j < |hits| && hits[j].id == hits[k].id
        ensures hits[j].score <= hits[k].score && (j < k ==> hits[j].score < hits[k].score)
      {
        var q := RowOfHit(rows, j);
        HitAt(rows, q);
        if p <= q {
          HitNumbersGrow(rows, p, q);
        }
      }
    }
  }

  lemma {:induction false} SeenFirstOnRows(rows: seq<Row>, a: string, b: string)
    ensures SeenFirst(HitsOf(rows), a, b) <==> RowSeenFirst(rows, a, b)
  {
    var hits := HitsOf(rows);
    if SeenFirst(hits, a, b) {
      var k :| FirstSight(hits, k, a, b);
      var p := RowOfHit(rows, k);
      HitAt(rows, p);
      forall q | 0 <= q <= p && NearAt(rows, q) ensures rows[q].id != b {
        HitAt(rows, q);
        HitNumbersGrow(rows, q, p);
      }
      assert FirstRow(rows, p, a, b);
    }
    if RowSeenFirst(rows, a, b) {
      var p :| FirstRow(rows, p, a, b);
      HitAt(rows, p);
      forall j | 0 <= j <= HitNumber(rows, p) ensures hits[j].id != b {
        var q := RowOfHit(rows, j);
        HitAt(rows, q);
        if p < q {
          HitNumbersGrow(rows, p, q);
        }
      }
      assert FirstSight(hits, HitNumber(rows, p), a, b);
    }
  }

  lemma {:induction false} BestStandsFor(rows: seq<Row>, c: RetrievedChunk)
    ensures Best(HitsOf(rows), c) <==> exists p :: StandsFor(rows, p, c)
  {
    var hits := HitsOf(rows);
    if Best(hits, c) {
      var k :| IsBest(hits, k) && hits[k] == c;
      var p := RowOfHit(rows, k);
      HitAt(rows, p);
      BestIsClosest(rows, p);
      assert StandsFor(rows, p, c);
    }
    if p :| StandsFor(rows, p, c) {
      HitAt(rows, p);
      BestIsClosest(rows, p);
      assert IsBest(hits, HitNumber(rows, p));
    }
  }

  lemma {:induction false} BeforeIsAhead(rows: seq<Row>, c: RetrievedChunk, b: RetrievedChunk)
    ensures Before(HitsOf(rows), c, b) <==> Ahead(rows, c, b.id, 2.0 - 2.0 * b.score)
  {
    SeenFirstOnRows(rows, c.id, b.id);
  }

  lemma {:induction false} TokensBeforeAhead(rows: seq<Row>, cs: seq<RetrievedChunk>, b: RetrievedChunk)
    ensures TokensBefore(HitsOf(rows), cs, b) == TokensAhead(rows, cs, b.id, 2.0 - 2.0 * b.score)
  {
    if cs != [] {
      BeforeIsAhead(rows, cs[0], b);
      TokensBeforeAhead(rows, cs[1..], b);
    }
  }

  lemma {:induction false} SelectionOnRows(rows: seq<Row>, budget: int, selected: seq<RetrievedChunk>)
    requires Selection(HitsOf(rows), budget, selected)
    ensures NearestFit(rows, budget, selected)
  {
    forall c | c in selected ensures exists p :: StandsFor(rows, p, c) {
      BestStandsFor(rows, c);
    }
    forall i, j | 0 <= i < j < |selected|
      ensures Ahead(rows, selected[i], selected[j].id, 2.0 - 2.0 * selected[j].score)
    {
      BeforeIsAhead(rows, selected[i], selected[j]);
    }
    forall p | Closest(rows, p) && (forall c | c in selected :: c.id != rows[p].id)
      ensures TokensAhead(rows, selected, rows[p].id, rows[p].distance.value) + rows[p].tokenCount > budget
    {
      var c := RetrievedChunk(rows[p].id, rows[p].tokenCount, 1.0 - rows[p].distance.value / 2.0);
      assert StandsFor(rows, p, c);
      BestStandsFor(rows, c);
      TokensBeforeAhead(rows, selected, c);
    }
  }

  lemma {:induction false} RowsToSelection(rows: seq<Row>, budget: int, selected: seq<RetrievedChunk>)
    requires NearestFit(rows, budget, selected)
    ensures Selection(HitsOf(rows), budget, selected)
  {
    var hits := HitsOf(rows);
    forall c | c in selected ensures Best(hits, c) {
      BestStandsFor(rows, c);
    }
    forall i, j | 0 <= i < j < |selected| ensures Before(hits, selected[i], selected[j]) {
      BeforeIsAhead(rows, selected[i], selected[j]);
    }
    forall c | Best(hits, c) && c !in selected ensures TokensBefore(hits, selected, c) + c.tokenCount > budget {
      BestStandsFor(rows, c);
      var p :| StandsFor(rows, p, c);
      forall d | d in selected ensures d.id != c.id {
        BestStandsFor(rows, d);
        if d.id == c.id {
          BestIsUnique(hits, c, d);
        }
      }
      TokensBeforeAhead(rows, selected, c);
    }
  }

  // ---- There is only one such selection ----

  lemma {:induction false} BeforeOneWay(hits: seq<RetrievedChunk>, x: RetrievedChunk, y: RetrievedChunk)
    requires Before(hits, x, y)
    ensures !Before(hits, y, x)
  {
  }

  lemma {:induction false} NoneBefore(hits: seq<RetrievedChunk>, cs: seq<RetrievedChunk>, c: RetrievedChunk)
    requires forall x | x in cs :: Before(hits, c, x)
    ensures TokensBefore(hits, cs, c) == 0
  {
    if cs != [] {
      BeforeOneWay(hits, c, cs[0]);
      NoneBefore(hits, cs[1..], c);
    }
  }

  // kept is ranked, drawn from the ranked candidates, within the budget, and
  // leaves out only what does not fit.
  ghost predicate FitOf(hits: seq<RetrievedChunk>, cs: seq<RetrievedChunk>, used: nat, budget: int,
                        kept: seq<RetrievedChunk>)
  {
    && Ranked(hits, cs) && Ranked(hits, kept) && (forall c | c in kept :: c in cs)
    && (kept != [] ==> used + Tokens(kept) <= budget)
    && (forall c | c in cs && c !in kept :: used + TokensBefore(hits, kept, c) + c.tokenCount > budget)
  }

  lemma {:induction false} RestAfter(hits: seq<RetrievedChunk>, cs: seq<RetrievedChunk>)
    requires cs != [] && Ranked(hits, cs)
    ensures Ranked(hits, cs[1..])
    ensures forall c | c in cs[1..] :: c in cs && Before(hits, cs[0], c) && !Before(hits, c, cs[0]) && c != cs[0]
  {
    forall c | c in cs[1..] ensures c in cs && Before(hits, cs[0], c) && !Before(hits, c, cs[0]) && c != cs[0] {
      var i :| 0 <= i < |cs[1..]| && cs[1..][i] == c;
      assert cs[i + 1] == c;
      BeforeOneWay(hits, cs[0], c);
    }
  }

  lemma {:induction false} FirstKept(hits: seq<RetrievedChunk>, cs: seq<RetrievedChunk>, kept: seq<RetrievedChunk>)
    requires cs != [] && Ranked(hits, cs) && Ranked(hits, kept) && (forall c | c in kept :: c in cs) && cs[0] in kept
    ensures kept[0] == cs[0] && forall c | c in kept[1..] :: c in cs[1..]
  {
    RestAfter(hits, cs);
    RestAfter(hits, kept);
    assert cs == [cs[0]] + cs[1..] && kept == [kept[0]] + kept[1..];
    assert kept[0] in kept;
    forall c | c in kept[1..] ensures c in cs[1..] {
      assert c in kept && c != kept[0];
    }
  }

  // The first candidate, if kept, is the first kept;
  lemma {:induction false} FitTaken(hits: seq<RetrievedChunk>, cs: seq<RetrievedChunk>, used: nat, budget: int,
                                    kept: seq<RetrievedChunk>)
    requires cs != [] && FitOf(hits, cs, used, budget, kept) && cs[0] in kept
    ensures kept[0] == cs[0] && used + cs[0].tokenCount <= budget
    ensures FitOf(hits, cs[1..], used + cs[0].tokenCount, budget, kept[1..])
  {
    FirstKept(hits, cs, kept);
    RestAfter(hits, cs);
    RestAfter(hits, kept);
    assert kept == [kept[0]] + kept[1..];
    forall c | c in cs[1..] && c !in kept[1..]
      ensures used + cs[0].tokenCount + TokensBefore(hits, kept[1..], c) + c.tokenCount > budget
    {
      assert c in cs && c !in kept;
    }
  }

  // and if not, it does not fit.
  lemma {:induction false} FitSkipped(hits: seq<RetrievedChunk>, cs: seq<RetrievedChunk>, used: nat, budget: int,
                                      kept: seq<RetrievedChunk>)
    requires cs != [] && FitOf(hits, cs, used, budget, kept) && cs[0] !in kept
    ensures used + cs[0].tokenCount > budget && FitOf(hits, cs[1..], used, budget, kept)
  {
    RestAfter(hits, cs);
    assert cs == [cs[0]] + cs[1..];
    forall x | x in kept ensures x in cs[1..] {
      assert x in cs && x != cs[0];
    }
    NoneBefore(hits, kept, cs[0]);
  }

  lemma {:induction false} FitIsTrimmed(hits: seq<RetrievedChunk>, cs: seq<RetrievedChunk>, used: nat, budget: int,
                                        kept: seq<RetrievedChunk>)
    requires FitOf(hits, cs, used, budget, kept)
    ensures kept == Trim(cs, used, budget)
    decreases |cs|
  {
    assert kept != [] ==> kept[0] in kept;
    if cs != [] {
      if cs[0] in kept {
        FitTaken(hits, cs, used, budget, kept);
        FitIsTrimmed(hits, cs[1..], used + cs[0].tokenCount, budget, kept[1..]);
        assert kept == [cs[0]] + kept[1..];
      } else {
        FitSkipped(hits, cs, used, budget, kept);
        FitIsTrimmed(hits, cs[1..], used, budget, kept);
      }
    }
  }

  lemma {:induction false} BestExists(hits: seq<RetrievedChunk>)
    returns (best: map<string, RetrievedChunk>, order: seq<string>)
    ensures BestPerChunk(hits, best, order)
  {
    best, order := map[], [];
    if hits != [] {
      var front, hit := hits[..|hits| - 1], hits[|hits| - 1];
      best, order := BestExists(front);
      assert hits == front + [hit];
      if hit.id in best && hit.score <= best[hit.id].score {
        WorseHit(front, best, order, hit);
      } else {
        BetterHit(front, best, order, hit);
        best, order := best[hit.id := hit], if hit.id in best then order else order + [hit.id];
      }
    }
  }

  // The conditions on a selection leave no choice.
  lemma {:induction false} OneNearestFit(rows: seq<Row>, budget: int, a: seq<RetrievedChunk>, b: seq<RetrievedChunk>)
    requires NearestFit(rows, budget, a) && NearestFit(rows, budget, b)
    ensures a == b
  {
    var hits := HitsOf(rows);
    var best, order := BestExists(hits);
    var cs := SortByScore(Values(best, order));
    CandidatesAreBest(hits, best, order, cs);
    RowsToSelection(rows, budget, a);
    RowsToSelection(rows, budget, b);
    FitIsTrimmed(hits, cs, 0, budget, a);
    FitIsTrimmed(hits, cs, 0, budget, b);
  }

  ghost function NearIds(rows: seq<Row>): set<string> {
    set p | 0 <= p < |rows| && NearAt(rows, p) :: rows[p].id
  }

  lemma {:induction false} IdsOnRows(rows: seq<Row>)
    ensures (set h | h in HitsOf(rows) :: h.id) == NearIds(rows)
  {
    var hits := HitsOf(rows);
    forall id | id in (set h | h in hits :: h.id) ensures id in NearIds(rows) {
      var k :| 0 <= k < |hits| && hits[k].id == id;
      var p := RowOfHit(rows, k);
      HitAt(rows, p);
    }
    forall id | id in NearIds(rows) ensures id in (set h | h in hits :: h.id) {
      var p :| 0 <= p < |rows| && NearAt(rows, p) && rows[p].id == id;
      HitAt(rows, p);
      assert hits[HitNumber(rows, p)] in hits;
    }
  }

  method Search(results: seq<seq<Row>>, budget: int) returns (r: RetrievalResult)
    ensures NearestFit(Rows(results), budget, r.selected)
    ensures r.chunksFetched == |NearIds(Rows(results))|
    ensures r.chunksUsed == |r.selected| <= r.chunksFetched && r.trimmed == r.chunksFetched - r.chunksUsed
    ensures r.empty <==> r.selected == []
  {
    var best, order := CollectBest(results);
    var candidates := SortByScore(Values(best, order));
    var chunksFetched := |candidates|;
    var selected, tokenTotal := TrimToBudget(candidates, budget);
    CandidatesAreBest(AllHits(results), best, order, candidates);
    SelectionHolds(AllHits(results), candidates, budget);
    TrimShorter(candidates, 0, budget);
    AllHitsOfRows(results);
    SelectionOnRows(Rows(results), budget, selected);
    IdsOnRows(Rows(results));
    r := RetrievalResult(selected, chunksFetched, |selected|, chunksFetched - |selected|, selected == []);
  }

  lemma {:induction false} TrimShorter(cs: seq<RetrievedChunk>, used: nat, budget: int)
    ensures |Trim(cs, used, budget)| <= |cs|
    decreases |cs|
  {
    if cs != [] {
      TrimShorter(cs[1..], if used + cs[0].tokenCount > budget then used else used + cs[0].tokenCount, budget);
    }
  }

  ghost predicate Candidates(hits: seq<RetrievedChunk>, cs: seq<RetrievedChunk>) {
    Distinct(cs) && Ranked(hits, cs) && forall c :: c in cs <==> Best(hits, c)
  }

  lemma {:induction false} BestIsUnique(hits: seq<RetrievedChunk>, a: RetrievedChunk, b: RetrievedChunk)
    requires Best(hits, a) && Best(hits, b) && a.id == b.id
    ensures a == b
  {
    var i :| IsBest(hits, i) && hits[i] == a;
    var j :| IsBest(hits, j) && hits[j] == b;
  }

  lemma {:induction false} ValuesDistinct(hits: seq<RetrievedChunk>, best: map<string, RetrievedChunk>,
                                          order: seq<string>)
    requires BestPerChunk(hits, best, order)
    ensures Distinct(Values(best, order))
  {
    var vs := Values(best, order);
    forall i, j | 0 <= i < j < |vs| ensures vs[i].id != vs[j].id {
      assert order[i] in best && order[j] in best;
    }
  }

  lemma {:induction false} BestIsKnown(hits: seq<RetrievedChunk>, best: map<string, RetrievedChunk>, order: seq<string>,
                                       c: RetrievedChunk)
    requires BestPerChunk(hits, best, order) && Best(hits, c)
    ensures c.id in best && best[c.id] == c
  {
    var k :| IsBest(hits, k) && hits[k] == c;
    assert hits[k].id in best;
    BestIsUnique(hits, c, best[c.id]);
  }

  lemma {:induction false} ValuesAreBest(hits: seq<RetrievedChunk>, best: map<string, RetrievedChunk>,
                                         order: seq<string>, c: RetrievedChunk)
    requires BestPerChunk(hits, best, order)
    ensures c in Values(best, order) <==> Best(hits, c)
  {
    if c in Values(best, order) {
      var i :| 0 <= i < |order| && best[order[i]] == c;
      assert order[i] in best;
    }
    if Best(hits, c) {
      assert c.id in order && best[c.id] == c by {
        BestIsKnown(hits, best, order, c);
      }
      var i :| 0 <= i < |order| && order[i] == c.id;
      assert Values(best, order)[i] == c;
    }
  }

  lemma {:induction false} CandidatesAreBest(hits: seq<RetrievedChunk>, best: map<string, RetrievedChunk>,
                                             order: seq<string>, cs: seq<RetrievedChunk>)
    requires BestPerChunk(hits, best, order)
    requires cs == SortByScore(Values(best, order))
    ensures Candidates(hits, cs)
    ensures |cs| == |set h | h in hits :: h.id|
  {
    var vs := Values(best, order);
    forall i, j | 0 <= i < j < |vs| ensures SeenFirst(hits, vs[i].id, vs[j].id) {
      assert order[i] in best && order[j] in best;
    }
    SortedRanked(hits, vs);
    forall c ensures c in cs <==> Best(hits, c) {
      assert c in cs <==> c in multiset(cs);
      ValuesAreBest(hits, best, order, c);
    }
    ValuesDistinct(hits, best, order);
    DistinctPermutation(vs, cs);
    CountIds(hits, best, order);
    assert |multiset(cs)| == |cs| && |multiset(vs)| == |vs|;
  }

  lemma {:induction false} DistinctPermutation(a: seq<RetrievedChunk>, b: seq<RetrievedChunk>)
    requires Distinct(a) && multiset(a) == multiset(b)
    ensures Distinct(b)
  {
    forall i, j | 0 <= i < j < |b| ensures b[i].id != b[j].id {
      assert b[i] in multiset(a) && b[j] in multiset(a);
      var x :| 0 <= x < |a| && a[x] == b[i];
      var y :| 0 <= y < |a| && a[y] == b[j];
      OnceInDistinct(a, b[i]);
      CountedTwice(b, i, j);
    }
  }

  lemma {:induction false} OnceInDistinct(a: seq<RetrievedChunk>, c: RetrievedChunk)
    requires Distinct(a)
    ensures multiset(a)[c] <= 1
  {
    if a != [] {
      OnceInDistinct(a[1..], c);
      assert a == [a[0]] + a[1..];
      if a[0] == c {
        assert c !in a[1..];
      }
    }
  }

  lemma {:induction false} CountIds(hits: seq<RetrievedChunk>, best: map<string, RetrievedChunk>, order: seq<string>)
    requires BestPerChunk(hits, best, order)
    ensures |order| == |set h | h in hits :: h.id|
  {
    var ids := set h | h in hits :: h.id;
    forall id | id in ids ensures id in order {
      var h :| h in hits && h.id == id;
    }
    forall id | id in order ensures id in ids {
      var k :| IsBest(hits, k) && hits[k] == best[id];
      assert hits[k] in hits;
    }
    SizeOfListed(order, ids);
  }

  lemma {:induction false} SizeOfListed(order: seq<string>, ids: set<string>)
    requires forall i, j | 0 <= i < j < |order| :: order[i] != order[j]
    requires forall id :: id in order <==> id in ids
    ensures |order| == |ids|
  {
    if order == [] {
      assert ids == {};
    } else {
      var n := |order| - 1;
      assert order[n] in ids;
      forall id ensures id in order[..n] <==> id in ids - {order[n]} {
      }
      SizeOfListed(order[..n], ids - {order[n]});
    }
  }

  lemma {:induction false} SelectionHolds(hits: seq<RetrievedChunk>, cs: seq<RetrievedChunk>, budget: int)
    requires Candidates(hits, cs)
    ensures Selection(hits, budget, Trim(cs, 0, budget))
  {
    TrimFits(cs, 0, budget);
    TrimOrder(hits, cs, 0, budget);
    forall c | Best(hits, c) && c !in Trim(cs, 0, budget)
        ensures TokensBefore(hits, Trim(cs, 0, budget), c) + c.tokenCount > budget {
      TrimRejects(hits, cs, 0, budget, c);
    }
  }
}
