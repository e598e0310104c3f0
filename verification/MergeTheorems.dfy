// Merging sibling declarations: every maximal run of declarations that fit the
// budget and are separated by white space becomes as few chunks as possible.

module MergeTheorems {
  import opened Text
  import opened Packing
  import opened SyntaxTree
  import opened AstChunker

  // A run of declarations that each fit and are separated only by white space.
  ghost predicate FittingRun(cfg: Config, run: seq<Node>, prev: nat) {
    if run == [] then true
    else
      && NodeTokens(cfg)(run[0]) <= cfg.target
      && Blank(Slice(cfg.src, prev, run[0].start))
      && FittingRun(cfg, run[1..], run[0].end)
  }

  function RunEnd(run: seq<Node>, prev: nat): nat {
    if run == [] then prev else run[|run| - 1].end
  }

  // The run ends the walk, or is followed by other text or an oversize declaration.
  ghost predicate RunStops(cfg: Config, rest: seq<Node>, prev: nat) {
    rest == [] || GapPieces(cfg, prev, rest[0].start) != [] || NodeTokens(cfg)(rest[0]) > cfg.target
  }

  function GroupPieces(gs: seq<seq<Node>>): seq<Piece> {
    if gs == [] then [] else FlushPieces(gs[0]) + GroupPieces(gs[1..])
  }

  lemma {:induction false} GapFlushes(cfg: Config, rest: seq<Node>, prev: nat, hi: nat, pending: seq<Node>)
    requires rest != [] && GapPieces(cfg, prev, rest[0].start) != []
    ensures Walk(cfg, rest, prev, hi, pending) == FlushPieces(pending) + Walk(cfg, rest, prev, hi, [])
  {
    var gap, tail := GapPieces(cfg, prev, rest[0].start), Place(cfg, rest, hi, []);
    assert FlushPieces(pending) + gap + tail == FlushPieces(pending) + (gap + tail);
    assert FlushPieces([]) + gap + tail == gap + tail;
  }

  lemma {:induction false} OversizeFlushes(cfg: Config, rest: seq<Node>, hi: nat, pending: seq<Node>)
    requires rest != [] && NodeTokens(cfg)(rest[0]) > cfg.target
    ensures Place(cfg, rest, hi, pending) == FlushPieces(pending) + Place(cfg, rest, hi, [])
  {
    var n, sub := rest[0], Pieces(cfg, rest[0]);
    var inner := if sub != [] then sub else [Decl(n.start, n.end)];
    var tail := Walk(cfg, rest[1..], n.end, hi, []);
    Assemble(FlushPieces(pending) + (inner + tail), FlushPieces(pending), inner + tail, inner, tail);
    Assemble(inner + tail, FlushPieces([]), inner + tail, inner, tail);
  }

  lemma {:induction false} BoundaryFlushes(cfg: Config, rest: seq<Node>, prev: nat, hi: nat, pending: seq<Node>)
    requires RunStops(cfg, rest, prev)
    ensures Walk(cfg, rest, prev, hi, pending) == FlushPieces(pending) + Walk(cfg, rest, prev, hi, [])
  {
    if rest != [] {
      if GapPieces(cfg, prev, rest[0].start) != [] {
        GapFlushes(cfg, rest, prev, hi, pending);
      } else {
        OversizeFlushes(cfg, rest, hi, pending);
      }
    }
  }

  lemma {:induction false} GroupPiecesCons(g: seq<Node>, gs: seq<seq<Node>>)
    ensures GroupPieces([g] + gs) == FlushPieces(g) + GroupPieces(gs)
  {
    assert ([g] + gs)[1..] == gs;
  }

  lemma {:induction false} Assemble<T>(all: seq<T>, a: seq<T>, rest: seq<T>, b: seq<T>, c: seq<T>)
    requires all == a + rest && rest == b + c
    ensures all == a + b + c
  {
  }

  lemma {:induction false} FullMerges(cfg: Config, nodes: seq<Node>, prev: nat, hi: nat, pending: seq<Node>,
                                      gs: seq<seq<Node>>, tail: seq<Piece>)
    requires nodes != [] && GapPieces(cfg, prev, nodes[0].start) == [] && NodeTokens(cfg)(nodes[0]) <= cfg.target
    requires pending != [] && Weight(NodeTokens(cfg), pending) + NodeTokens(cfg)(nodes[0]) > cfg.target
    requires Walk(cfg, nodes[1..], nodes[0].end, hi, [nodes[0]]) == GroupPieces(gs) + tail
    ensures Walk(cfg, nodes, prev, hi, pending) == GroupPieces([pending] + gs) + tail
  {
    GroupPiecesCons(pending, gs);
    assert Walk(cfg, nodes, prev, hi, pending) == Place(cfg, nodes, hi, pending);
    Assemble(Walk(cfg, nodes, prev, hi, pending), FlushPieces(pending),
        Walk(cfg, nodes[1..], nodes[0].end, hi, [nodes[0]]),
             GroupPieces(gs), tail);
  }

  lemma {:induction false} WalkMergesRun(cfg: Config, run: seq<Node>, rest: seq<Node>, prev: nat, hi: nat,
                                         pending: seq<Node>)
    requires FittingRun(cfg, run, prev) && RunStops(cfg, rest, RunEnd(run, prev))
    ensures Walk(cfg, run + rest, prev, hi, pending)
         == GroupPieces(Greedy(NodeTokens(cfg), cfg.target, pending, run)) + Walk(cfg, rest, RunEnd(run, prev), hi, [])
    decreases |run|
  {
    var w := NodeTokens(cfg);
    if run == [] {
      assert run + rest == rest;
      BoundaryFlushes(cfg, rest, prev, hi, pending);
      GroupPiecesCons(pending, []);
      assert [pending] + [] == [pending];
    } else {
      var n, more := run[0], run[1..];
      assert (run + rest)[1..] == more + rest && (run + rest)[0] == n;
      assert RunEnd(more, n.end) == RunEnd(run, prev);
      var tail := Walk(cfg, rest, RunEnd(run, prev), hi, []);
      if pending != [] && Weight(w, pending) + w(n) > cfg.target {
        WalkMergesRun(cfg, more, rest, n.end, hi, [n]);
        var gs := Greedy(w, cfg.target, [n], more);
        FullMerges(cfg, run + rest, prev, hi, pending, gs, tail);
      } else {
        WalkMergesRun(cfg, more, rest, n.end, hi, pending + [n]);
      }
    }
  }

  lemma {:induction false} GroupPiecesCount(gs: seq<seq<Node>>)
    requires forall i | 0 <= i < |gs| :: gs[i] != []
    ensures |GroupPieces(gs)| == |gs|
  {
    if gs != [] {
      GroupPiecesCount(gs[1..]);
    }
  }

  lemma {:induction false} GreedyGroupsNonEmpty(w: Node -> nat, cap: nat, open: seq<Node>, xs: seq<Node>)
    ensures forall i | 0 <= i < |Greedy(w, cap, open, xs)| :: Greedy(w, cap, open, xs)[i] != []
    decreases |xs|
  {
    if xs != [] {
      GreedyGroupsNonEmpty(w, cap, [xs[0]], xs[1..]);
      GreedyGroupsNonEmpty(w, cap, open + [xs[0]], xs[1..]);
    }
  }

  lemma {:induction false} FittingRunWeights(cfg: Config, run: seq<Node>, prev: nat)
    requires FittingRun(cfg, run, prev)
    ensures forall i | 0 <= i < |run| :: NodeTokens(cfg)(run[i]) <= cfg.target
  {
    if run != [] {
      FittingRunWeights(cfg, run[1..], run[0].end);
    }
  }

  // A run that the walk enters with nothing pending.
  lemma {:induction false} RunIsMerged(cfg: Config, run: seq<Node>, rest: seq<Node>, prev: nat, hi: nat)
    returns (gs: seq<seq<Node>>)
    requires FittingRun(cfg, run, prev) && RunStops(cfg, rest, RunEnd(run, prev))
    ensures Packs(NodeTokens(cfg), cfg.target, run, gs)
    ensures Walk(cfg, run + rest, prev, hi, []) == GroupPieces(gs) + Walk(cfg, rest, RunEnd(run, prev), hi, [])
    ensures |GroupPieces(gs)| == |gs| && Tight(NodeTokens(cfg), cfg.target, gs)
    ensures forall hs | Packs(NodeTokens(cfg), cfg.target, run, hs) :: |GroupPieces(gs)| <= |hs|
  {
    var w := NodeTokens(cfg);
    gs := Greedy(w, cfg.target, [], run);
    assert [] + run == run;
    FittingRunWeights(cfg, run, prev);
    GreedyPacks(w, cfg.target, [], run);
    WalkMergesRun(cfg, run, rest, prev, hi, []);
    GreedyGroupsNonEmpty(w, cfg.target, [], run);
    GroupPiecesCount(gs);
    GreedyIsTight(w, cfg.target, [], run);
    forall hs | Packs(w, cfg.target, run, hs)
      ensures |gs| <= |hs|
    {
      GreedyIsMinimal(w, cfg.target, [], run, hs);
    }
  }

  // ---- A run in the middle of a node ----

  // Declaration n and what follows it start afresh: a chunk of other text, or
  // an oversize declaration, comes before.
  ghost predicate StartsAfresh(cfg: Config, last: Node, n: Node) {
    GapPieces(cfg, last.end, n.start) != [] || NodeTokens(cfg)(last) > cfg.target
  }

  // One step of the walk: what it emits, and what is pending after it.
  lemma {:induction false} WalkStep(cfg: Config, nodes: seq<Node>, prev: nat, hi: nat, pending: seq<Node>)
    returns (emitted: seq<Piece>, pending': seq<Node>)
    requires nodes != []
    ensures Walk(cfg, nodes, prev, hi, pending) == emitted + Walk(cfg, nodes[1..], nodes[0].end, hi, pending')
    ensures NodeTokens(cfg)(nodes[0]) > cfg.target ==> pending' == []
  {
    var gap := GapPieces(cfg, prev, nodes[0].start);
    if gap == [] {
      emitted, pending' := PlaceStep(cfg, nodes, hi, pending);
    } else {
      emitted, pending' := PlaceStep(cfg, nodes, hi, []);
      emitted := FlushPieces(pending) + gap + emitted;
    }
  }

  lemma {:induction false} PlaceStep(cfg: Config, nodes: seq<Node>, hi: nat, pending: seq<Node>)
    returns (emitted: seq<Piece>, pending': seq<Node>)
    requires nodes != []
    ensures Place(cfg, nodes, hi, pending) == emitted + Walk(cfg, nodes[1..], nodes[0].end, hi, pending')
    ensures NodeTokens(cfg)(nodes[0]) > cfg.target ==> pending' == []
  {
    var n, sub := nodes[0], Pieces(cfg, nodes[0]);
    if NodeTokens(cfg)(n) > cfg.target {
      emitted, pending' := FlushPieces(pending) + (if sub != [] then sub else [Decl(n.start, n.end)]), [];
    } else if pending != [] && Weight(NodeTokens(cfg), pending) + NodeTokens(cfg)(n) > cfg.target {
      emitted, pending' := FlushPieces(pending), [n];
    } else {
      emitted, pending' := [], pending + [n];
    }
  }

  lemma {:induction false} WalkStarts(cfg: Config, nodes: seq<Node>, prev: nat, hi: nat, pending: seq<Node>)
    returns (before: seq<Piece>)
    requires nodes != [] && (pending == [] || GapPieces(cfg, prev, nodes[0].start) != [])
    ensures Walk(cfg, nodes, prev, hi, pending) == before + Walk(cfg, nodes, nodes[0].start, hi, [])
  {
    before := FlushPieces(pending) + GapPieces(cfg, prev, nodes[0].start);
    assert Walk(cfg, nodes, nodes[0].start, hi, []) == Place(cfg, nodes, hi, []);
  }

  // The walk reaches declaration i with nothing pending, if it starts afresh.
  lemma {:induction false} WalkReaches(cfg: Config, nodes: seq<Node>, prev: nat, hi: nat, pending: seq<Node>, i: nat)
    returns (before: seq<Piece>)
    requires i < |nodes|
    requires if i == 0 then pending == [] || GapPieces(cfg, prev, nodes[0].start) != []
              else StartsAfresh(cfg, nodes[i - 1], nodes[i])
    ensures Walk(cfg, nodes, prev, hi, pending) == before + Walk(cfg, nodes[i..], nodes[i].start, hi, [])
    decreases i
  {
    if i == 0 {
      assert nodes[0..] == nodes;
      before := WalkStarts(cfg, nodes, prev, hi, pending);
    } else {
      var emitted, pending' := WalkStep(cfg, nodes, prev, hi, pending);
      var more := WalkReaches(cfg, nodes[1..], nodes[0].end, hi, pending', i - 1);
      before := emitted + more;
      assert nodes[1..][i - 1..] == nodes[i..];
      Assemble(Walk(cfg, nodes, prev, hi, pending), emitted, Walk(cfg, nodes[1..], nodes[0].end, hi, pending'),
               more, Walk(cfg, nodes[i..], nodes[i].start, hi, []));
    }
  }

  // Declarations i..j of a node: each fits, only white space lies between them,
  // and on either side the node ends, or other text or an oversize declaration
  // follows.
  ghost predicate MaximalRun(cfg: Config, nodes: seq<Node>, i: nat, j: nat) {
    && i < j <= |nodes|
    && FittingRun(cfg, nodes[i..j], nodes[i].start)
    && (i > 0 ==> StartsAfresh(cfg, nodes[i - 1], nodes[i]))
    && RunStops(cfg, nodes[j..], nodes[j - 1].end)
  }

  // A run may start anywhere in the white space before its first declaration.
  lemma {:induction false} RunFrom(cfg: Config, run: seq<Node>, prev: nat, prev': nat)
    requires run != [] && FittingRun(cfg, run, prev) && Blank(Slice(cfg.src, prev', run[0].start))
    ensures FittingRun(cfg, run, prev')
  {
  }

  lemma {:induction false} ExtendRight(cfg: Config, nodes: seq<Node>, k: nat) returns (j: nat)
    requires k < |nodes| && NodeTokens(cfg)(nodes[k]) <= cfg.target
    ensures k < j <= |nodes| && FittingRun(cfg, nodes[k..j], nodes[k].start)
              && RunStops(cfg, nodes[j..], nodes[j - 1].end)
    decreases |nodes| - k
  {
    if k + 1 < |nodes| && GapPieces(cfg, nodes[k].end, nodes[k + 1].start) == []
        && NodeTokens(cfg)(nodes[k + 1]) <= cfg.target {
      j := ExtendRight(cfg, nodes, k + 1);
      assert nodes[k + 1..j][0] == nodes[k + 1];
      RunFrom(cfg, nodes[k + 1..j], nodes[k + 1].start, nodes[k].end);
      assert nodes[k..j][1..] == nodes[k + 1..j];
    } else {
      j := k + 1;
      assert nodes[k..j][1..] == [];
    }
  }

  lemma {:induction false} ExtendLeft(cfg: Config, nodes: seq<Node>, k: nat, j: nat) returns (i: nat)
    requires k < j <= |nodes| && FittingRun(cfg, nodes[k..j], nodes[k].start)
    ensures i <= k && FittingRun(cfg, nodes[i..j], nodes[i].start)
    ensures i > 0 ==> StartsAfresh(cfg, nodes[i - 1], nodes[i])
  {
    if k == 0 || StartsAfresh(cfg, nodes[k - 1], nodes[k]) {
      i := k;
    } else {
      assert nodes[k..j][0] == nodes[k];
      RunFrom(cfg, nodes[k..j], nodes[k].start, nodes[k - 1].end);
      assert nodes[k - 1..j][1..] == nodes[k..j];
      i := ExtendLeft(cfg, nodes, k - 1, j);
    }
  }

  // Every declaration that fits the budget is in a maximal run.
  lemma {:induction false} EveryFittingInRun(cfg: Config, nodes: seq<Node>, k: nat) returns (i: nat, j: nat)
    requires k < |nodes| && NodeTokens(cfg)(nodes[k]) <= cfg.target
    ensures i <= k < j && MaximalRun(cfg, nodes, i, j)
  {
    j := ExtendRight(cfg, nodes, k);
    i := ExtendLeft(cfg, nodes, k, j);
  }

  // Every maximal run of a node's declarations becomes consecutive chunks of
  // the node, one per group of a packing of the run under the budget: each group
  // takes what fits before the next begins, and no order-preserving packing of
  // the run under the budget has fewer groups.
  lemma {:induction false} MergeIsOptimal(cfg: Config, parent: Node, i: nat, j: nat)
    returns (before: seq<Piece>, gs: seq<seq<Node>>, after: seq<Piece>)
    requires MaximalRun(cfg, Top(cfg.kinds, parent.named), i, j)
    ensures Pieces(cfg, parent) == before + GroupPieces(gs) + after
    ensures Packs(NodeTokens(cfg), cfg.target, Top(cfg.kinds, parent.named)[i..j], gs) && |GroupPieces(gs)| == |gs|
    ensures Tight(NodeTokens(cfg), cfg.target, gs)
    ensures forall hs | Packs(NodeTokens(cfg), cfg.target, Top(cfg.kinds, parent.named)[i..j], hs) ::
              |GroupPieces(gs)| <= |hs|
  {
    var nodes := Top(cfg.kinds, parent.named);
    before := WalkReaches(cfg, nodes, parent.start, parent.end, [], i);
    gs, after := RunInNodes(cfg, nodes, i, j, parent.end);
    Assemble(Pieces(cfg, parent), before, Walk(cfg, nodes[i..], nodes[i].start, parent.end, []), GroupPieces(gs),
        after);
  }

  lemma {:induction false} RunInNodes(cfg: Config, nodes: seq<Node>, i: nat, j: nat, hi: nat)
    returns (gs: seq<seq<Node>>, after: seq<Piece>)
    requires MaximalRun(cfg, nodes, i, j)
    ensures Walk(cfg, nodes[i..], nodes[i].start, hi, []) == GroupPieces(gs) + after
    ensures Packs(NodeTokens(cfg), cfg.target, nodes[i..j], gs) && |GroupPieces(gs)| == |gs|
    ensures Tight(NodeTokens(cfg), cfg.target, gs)
    ensures forall hs | Packs(NodeTokens(cfg), cfg.target, nodes[i..j], hs) :: |GroupPieces(gs)| <= |hs|
  {
    assert nodes[i..] == nodes[i..j] + nodes[j..];
    assert RunEnd(nodes[i..j], nodes[i].start) == nodes[j - 1].end;
    gs := RunIsMerged(cfg, nodes[i..j], nodes[j..], nodes[i].start, hi);
    after := Walk(cfg, nodes[j..], nodes[j - 1].end, hi, []);
  }
}
