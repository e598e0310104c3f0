// What structural chunking promises: nothing but white space is lost, nothing
// is repeated, line numbers are exact, the token budget is kept, and merging
// uses as few chunks as possible.

module AstTheorems {
  import opened Text
  import opened Chunks
  import opened SyntaxTree
  import opened Packing
  import opened AstChunker

  // From lo to hi the pieces follow one another and only white space lies between them.
  ghost predicate Tiles(src: string, ps: seq<Piece>, lo: nat, hi: nat) {
    if ps == [] then lo <= hi && Blank(Slice(src, lo, hi))
    else
      && lo <= ps[0].start <= ps[0].end
      && Blank(Slice(src, lo, ps[0].start))
      && Tiles(src, ps[1..], ps[0].end, hi)
  }

  lemma {:induction false} TilesBounds(src: string, ps: seq<Piece>, lo: nat, hi: nat)
    requires Tiles(src, ps, lo, hi)
    ensures lo <= hi
  {
    if ps != [] {
      TilesBounds(src, ps[1..], ps[0].end, hi);
    }
  }

  lemma {:induction false} TilesConcat(src: string, a: seq<Piece>, b: seq<Piece>, lo: nat, mid: nat, hi: nat)
    requires Tiles(src, a, lo, mid) && Tiles(src, b, mid, hi)
    ensures Tiles(src, a + b, lo, hi)
  {
    if a == [] {
      assert a + b == b;
      TilesWiden(src, b, lo, mid, hi);
    } else {
      TilesConcat(src, a[1..], b, a[0].end, mid, hi);
      assert (a + b)[1..] == a[1..] + b;
    }
  }

  lemma {:induction false} TilesWiden(src: string, ps: seq<Piece>, lo: nat, lo': nat, hi: nat)
    requires lo <= lo' && Blank(Slice(src, lo, lo')) && Tiles(src, ps, lo', hi)
    ensures Tiles(src, ps, lo, hi)
  {
    TilesBounds(src, ps, lo', hi);
    var end := if ps == [] then hi else ps[0].start;
    SliceSplit(src, lo, lo', end);
    BlankConcat(Slice(src, lo, lo'), Slice(src, lo', end));
  }

  // A node has pieces exactly when it has a declaration below it.
  lemma {:induction false} PiecesExist(cfg: Config, parent: Node)
    ensures Pieces(cfg, parent) == [] <==> Top(cfg.kinds, parent.named) == []
  {
    var nodes := Top(cfg.kinds, parent.named);
    if nodes != [] {
      WalkExists(cfg, nodes, parent.start, parent.end, []);
    }
  }

  lemma {:induction false} WalkExists(cfg: Config, nodes: seq<Node>, prev: nat, hi: nat, pending: seq<Node>)
    requires nodes != [] || pending != []
    ensures Walk(cfg, nodes, prev, hi, pending) != []
    decreases |nodes|
  {
    if nodes != [] {
      var n := nodes[0];
      WalkExists(cfg, nodes[1..], n.end, hi, [n]);
      WalkExists(cfg, nodes[1..], n.end, hi, pending + [n]);
      WalkExists(cfg, nodes[1..], n.end, hi, [] + [n]);
    }
  }

  // Where the text not yet emitted begins.
  function Resume(pending: seq<Node>, prev: nat): nat {
    if pending == [] then prev else pending[0].start
  }

  ghost predicate PendingUpTo(pending: seq<Node>, prev: nat) {
    pending != [] ==> pending[0].start <= prev == pending[|pending| - 1].end
  }

  lemma {:induction false} PiecesTile(cfg: Config, parent: Node)
    requires WellFormed(parent) && Top(cfg.kinds, parent.named) != []
    ensures Tiles(cfg.src, Pieces(cfg, parent), parent.start, parent.end)
    decreases Size(parent), 0
  {
    TopIsForest(cfg.kinds, parent.named, parent.start, parent.end);
    WalkTiles(cfg, Top(cfg.kinds, parent.named), parent.start, parent.end, []);
  }

  lemma {:induction false} FlushTiles(cfg: Config, pending: seq<Node>, prev: nat)
    requires PendingUpTo(pending, prev)
    ensures Tiles(cfg.src, FlushPieces(pending), Resume(pending, prev), prev)
  {
    if pending != [] {
      assert FlushPieces(pending)[1..] == [];
    }
  }

  lemma {:induction false} GapTiles(cfg: Config, b1: nat, b2: nat)
    requires b1 <= b2
    ensures Tiles(cfg.src, GapPieces(cfg, b1, b2), b1, b2)
  {
    if GapPieces(cfg, b1, b2) != [] {
      assert GapPieces(cfg, b1, b2)[1..] == [];
    }
  }

  lemma {:induction false} WalkTiles(cfg: Config, nodes: seq<Node>, prev: nat, hi: nat, pending: seq<Node>)
    requires Forest(nodes, prev, hi) && PendingUpTo(pending, prev)
    ensures Tiles(cfg.src, Walk(cfg, nodes, prev, hi, pending), Resume(pending, prev), hi)
    decreases ForestSize(nodes), 3
  {
    FlushTiles(cfg, pending, prev);
    if nodes == [] {
      GapTiles(cfg, prev, hi);
      TilesConcat(cfg.src, FlushPieces(pending), GapPieces(cfg, prev, hi), Resume(pending, prev), prev, hi);
    } else {
      var s := nodes[0].start;
      var gap := GapPieces(cfg, prev, s);
      if gap == [] {
        PlaceTiles(cfg, nodes, prev, hi, pending);
      } else {
        PlaceTiles(cfg, nodes, s, hi, []);
        GapTiles(cfg, prev, s);
        TilesConcat(cfg.src, FlushPieces(pending), gap, Resume(pending, prev), prev, s);
        TilesConcat(cfg.src, FlushPieces(pending) + gap, Place(cfg, nodes, hi, []), Resume(pending, prev), s, hi);
      }
    }
  }

  // An oversize declaration is kept as its own pieces, or whole without any.
  lemma {:induction false} InnerTiles(cfg: Config, n: Node) returns (inner: seq<Piece>)
    requires WellFormed(n)
    ensures inner == if Pieces(cfg, n) != [] then Pieces(cfg, n) else [Decl(n.start, n.end)]
    ensures Tiles(cfg.src, inner, n.start, n.end)
    decreases Size(n), 1
  {
    inner := Pieces(cfg, n);
    if inner != [] {
      PiecesExist(cfg, n);
      PiecesTile(cfg, n);
    } else {
      inner := [Decl(n.start, n.end)];
      assert inner[1..] == [];
    }
  }

  lemma {:induction false} PlaceTiles(cfg: Config, nodes: seq<Node>, prev: nat, hi: nat, pending: seq<Node>)
    requires nodes != [] && Forest(nodes, prev, hi) && PendingUpTo(pending, prev)
    requires Blank(Slice(cfg.src, prev, nodes[0].start))
    ensures Tiles(cfg.src, Place(cfg, nodes, hi, pending), Resume(pending, prev), hi)
    decreases ForestSize(nodes), 2
  {
    var n := nodes[0];
    var src, lo, rest := cfg.src, Resume(pending, prev), nodes[1..];
    var flushed := FlushPieces(pending);
    FlushTiles(cfg, pending, prev);
    if NodeTokens(cfg)(n) > cfg.target {
      WalkTiles(cfg, rest, n.end, hi, []);
      var inner := InnerTiles(cfg, n);
      TilesWiden(src, inner, prev, n.start, n.end);
      TilesConcat(src, flushed, inner, lo, prev, n.end);
      TilesConcat(src, flushed + inner, Walk(cfg, rest, n.end, hi, []), lo, n.end, hi);
    } else if pending != [] && Weight(NodeTokens(cfg), pending) + NodeTokens(cfg)(n) > cfg.target {
      var tail := Walk(cfg, rest, n.end, hi, [n]);
      WalkTiles(cfg, rest, n.end, hi, [n]);
      TilesWiden(src, tail, prev, n.start, hi);
      TilesConcat(src, flushed, tail, lo, prev, hi);
    } else {
      var tail := Walk(cfg, rest, n.end, hi, pending + [n]);
      WalkTiles(cfg, rest, n.end, hi, pending + [n]);
      if pending == [] {
        TilesWiden(src, tail, prev, n.start, hi);
      }
    }
  }

  // ---- Reading the tiling back ----

  lemma {:induction false} TilesOrdered(src: string, ps: seq<Piece>, lo: nat, hi: nat)
    requires Tiles(src, ps, lo, hi)
    ensures forall i | 0 <= i < |ps| :: lo <= ps[i].start <= ps[i].end <= hi
    ensures forall i, j | 0 <= i < j < |ps| :: ps[i].end <= ps[j].start
  {
    if ps != [] {
      TilesOrdered(src, ps[1..], ps[0].end, hi);
      TilesBounds(src, ps[1..], ps[0].end, hi);
      assert ps == [ps[0]] + ps[1..];
    }
  }

  lemma {:induction false} BlankSliceAt(src: string, b: nat, e: nat, p: nat)
    requires Blank(Slice(src, b, e)) && b <= p < e && p < |src|
    ensures IsSpace(src[p])
  {
    assert Slice(src, b, e)[p - b] == src[p];
  }

  lemma {:induction false} TilesCover(src: string, ps: seq<Piece>, lo: nat, hi: nat, p: nat)
    requires Tiles(src, ps, lo, hi) && lo <= p < hi && p < |src| && !IsSpace(src[p])
    ensures exists i :: 0 <= i < |ps| && ps[i].start <= p < ps[i].end
  {
    if ps == [] {
      BlankSliceAt(src, lo, hi, p);
    } else {
      if p < ps[0].start {
        BlankSliceAt(src, lo, ps[0].start, p);
      } else if p >= ps[0].end {
        TilesCover(src, ps[1..], ps[0].end, hi, p);
        var i :| 0 <= i < |ps[1..]| && ps[1..][i].start <= p < ps[1..][i].end;
        assert ps[i + 1] == ps[1..][i];
      }
    }
  }

  // The chunks of a node, read in order, hold its non-white-space text exactly once.
  lemma {:induction false} TilesConserve(cfg: Config, ps: seq<Piece>, lo: nat, hi: nat)
    requires Tiles(cfg.src, ps, lo, hi)
    ensures InkOf(ChunksOf(cfg, ps)) == Ink(Slice(cfg.src, lo, hi))
    decreases |ps|
  {
    if ps == [] {
      InkOfBlank(Slice(cfg.src, lo, hi));
    } else {
      var p, cs := ps[0], ChunksOf(cfg, ps);
      TilesConserve(cfg, ps[1..], p.end, hi);
      TilesBounds(cfg.src, ps[1..], p.end, hi);
      assert cs[1..] == ChunksOf(cfg, ps[1..]);
      InkOfCons(cs);
      TileInk(cfg.src, lo, p.start, p.end, hi);
    }
  }

  // Blank, then a piece, then the rest.
  lemma {:induction false} TileInk(src: string, lo: nat, start: nat, end: nat, hi: nat)
    requires lo <= start <= end <= hi && Blank(Slice(src, lo, start))
    ensures Ink(Slice(src, lo, hi)) == Ink(Slice(src, start, end)) + Ink(Slice(src, end, hi))
  {
    SliceSplit(src, lo, start, hi);
    SliceSplit(src, start, end, hi);
    InkConcat(Slice(src, lo, start), Slice(src, start, hi));
    InkConcat(Slice(src, start, end), Slice(src, end, hi));
    InkOfBlank(Slice(src, lo, start));
  }

  // Tiling, stated about a node: pieces in order and disjoint inside the node,
  // and each position that is not white space in exactly one of them.
  lemma {:induction false} PiecesCoverOnce(cfg: Config, parent: Node)
    requires WellFormed(parent) && Top(cfg.kinds, parent.named) != []
    ensures var ps := Pieces(cfg, parent);
            && (forall i | 0 <= i < |ps| :: parent.start <= ps[i].start <= ps[i].end <= parent.end)
            && (forall i, j | 0 <= i < j < |ps| :: ps[i].end <= ps[j].start)
            && (forall p | parent.start <= p < parent.end && p < |cfg.src| && !IsSpace(cfg.src[p]) ::
                  (exists i :: 0 <= i < |ps| && ps[i].start <= p < ps[i].end)
                  && (forall i, j | 0 <= i < |ps| && 0 <= j < |ps| && ps[i].start <= p < ps[i].end
                         && ps[j].start <= p < ps[j].end :: i == j))
  {
    var ps := Pieces(cfg, parent);
    PiecesTile(cfg, parent);
    TilesOrdered(cfg.src, ps, parent.start, parent.end);
    forall p | parent.start <= p < parent.end && p < |cfg.src| && !IsSpace(cfg.src[p])
      ensures exists i :: 0 <= i < |ps| && ps[i].start <= p < ps[i].end
      ensures forall i, j | 0 <= i < |ps| && 0 <= j < |ps| && ps[i].start <= p < ps[i].end
                && ps[j].start <= p < ps[j].end :: i == j
    {
      TilesCover(cfg.src, ps, parent.start, parent.end, p);
    }
  }

  // The same, seen from outside: only the chunk texts and the source.
  lemma {:induction false} ChunksConserveText(cfg: Config, parent: Node)
    requires WellFormed(parent) && Top(cfg.kinds, parent.named) != []
    ensures InkOf(ChunksOf(cfg, Pieces(cfg, parent))) == Ink(Slice(cfg.src, parent.start, parent.end))
  {
    PiecesTile(cfg, parent);
    TilesConserve(cfg, Pieces(cfg, parent), parent.start, parent.end);
  }

  // ---- Line numbers ----

  // A chunk's line range starts at the row of its first position, holds the
  // row of every position in it, and reaches at most one row further.
  lemma {:induction false} PieceLines(cfg: Config, p: Piece)
    requires p.start <= p.end
    ensures LinesOk(ChunkOf(cfg, p)) && ChunkOf(cfg, p).content == Slice(cfg.src, p.start, p.end)
    ensures ChunkOf(cfg, p).filePath == cfg.filePath && ChunkOf(cfg, p).language == cfg.language
    ensures ChunkOf(cfg, p).startLine == Row(cfg.src, p.start) + 1
    ensures p.Decl? ==> ChunkOf(cfg, p).endLine == Row(cfg.src, p.end) + 1
    ensures forall q | p.start <= q < p.end ::
              ChunkOf(cfg, p).startLine <= Row(cfg.src, q) + 1 <= ChunkOf(cfg, p).endLine
    ensures p.start < p.end ==> Row(cfg.src, p.end - 1) + 1 <= ChunkOf(cfg, p).endLine <= Row(cfg.src, p.end - 1) + 2
    ensures p.Gap? && p.start < p.end ==> ChunkOf(cfg, p).endLine == Row(cfg.src, p.end - 1) + 1
  {
    RowMonotone(cfg.src, p.start, p.end);
    RowMonotone(cfg.src, p.start, LastByte(p.start, p.end));
    forall q | p.start <= q < p.end
      ensures Row(cfg.src, p.start) <= Row(cfg.src, q) <= Row(cfg.src, LastByte(p.start, p.end)) <= Row(cfg.src, p.end)
    {
      RowMonotone(cfg.src, p.start, q);
      RowMonotone(cfg.src, q, p.end - 1);
      RowMonotone(cfg.src, p.end - 1, p.end);
    }
    if p.start < p.end {
      RowAdvance(cfg.src, p.end - 1, p.end);
      var last := Slice(cfg.src, p.end - 1, p.end);
      assert |last| <= 1;
      assert Newlines(last) <= 1 by {
        if last != "" { assert last[1..] == ""; }
      }
    }
  }

  // ---- Budget ----

  // Why a piece was emitted: it is text between declarations; or a run of
  // consecutive declarations of one node that together fit the budget; or a
  // declaration over the budget with none inside.
  ghost predicate Justified(cfg: Config, root: Node, p: Piece) {
    || (p.Gap? && p.start < p.end && !Blank(Slice(cfg.src, p.start, p.end)))
    || (p.Decl? && exists m: Node, i: nat, j: nat ::
          Within(m, [root]) && MergedRun(cfg, m, i, j, p))
    || (p.Decl? && exists n: Node ::
          Within(n, [root]) && OversizeLeaf(cfg, n, p))
  }

  ghost predicate MergedRun(cfg: Config, m: Node, i: nat, j: nat, p: Piece) {
    var nodes := Top(cfg.kinds, m.named);
    && i < j <= |nodes|
    && p.start == nodes[i].start && p.end == nodes[j - 1].end
    && Weight(NodeTokens(cfg), nodes[i..j]) <= cfg.target
  }

  ghost predicate OversizeLeaf(cfg: Config, n: Node, p: Piece) {
    p.start == n.start && p.end == n.end && NodeTokens(cfg)(n) > cfg.target && Top(cfg.kinds, n.named) == []
  }

  ghost predicate AllJustified(cfg: Config, root: Node, ps: seq<Piece>) {
    ps == [] || (Justified(cfg, root, ps[0]) && AllJustified(cfg, root, ps[1..]))
  }

  lemma {:induction false} AllJustifiedConcat(cfg: Config, root: Node, a: seq<Piece>, b: seq<Piece>)
    requires AllJustified(cfg, root, a) && AllJustified(cfg, root, b)
    ensures AllJustified(cfg, root, a + b)
  {
    if a == [] {
      assert a + b == b;
    } else {
      AllJustifiedConcat(cfg, root, a[1..], b);
      assert (a + b)[1..] == a[1..] + b;
    }
  }

  lemma {:induction false} AllJustifiedAt(cfg: Config, root: Node, ps: seq<Piece>, k: nat)
    requires AllJustified(cfg, root, ps) && k < |ps|
    ensures Justified(cfg, root, ps[k])
  {
    if k > 0 {
      AllJustifiedAt(cfg, root, ps[1..], k - 1);
    }
  }

  lemma {:induction false} WithinTrans(d: Node, m: Node, ns: seq<Node>)
    requires Within(d, m.named) && Within(m, ns)
    ensures Within(d, ns)
    decreases ns
  {
    if m == ns[0] {
    } else if Within(m, ns[0].named) {
      WithinTrans(d, m, ns[0].named);
    } else {
      WithinTrans(d, m, ns[1..]);
    }
  }

  lemma {:induction false} PiecesJustified(cfg: Config, root: Node, m: Node)
    requires Within(m, [root])
    ensures AllJustified(cfg, root, Pieces(cfg, m))
    decreases Size(m), 0
  {
    var nodes := Top(cfg.kinds, m.named);
    if nodes != [] {
      assert nodes[0..] == nodes && nodes[0..0] == [];
      WalkJustified(cfg, root, m, 0, 0, m.start, m.end);
    }
  }

  lemma {:induction false} FlushJustified(cfg: Config, root: Node, m: Node, j: nat, k: nat)
    requires Within(m, [root]) && j <= k <= |Top(cfg.kinds, m.named)|
    requires Weight(NodeTokens(cfg), Top(cfg.kinds, m.named)[j..k]) <= cfg.target
    ensures AllJustified(cfg, root, FlushPieces(Top(cfg.kinds, m.named)[j..k]))
  {
    var ps := FlushPieces(Top(cfg.kinds, m.named)[j..k]);
    if j < k {
      assert MergedRun(cfg, m, j, k, ps[0]);
      assert ps[1..] == [];
    }
  }

  lemma {:induction false} GapJustified(cfg: Config, root: Node, b1: nat, b2: nat)
    ensures AllJustified(cfg, root, GapPieces(cfg, b1, b2))
  {
    var ps := GapPieces(cfg, b1, b2);
    if ps != [] {
      assert ps[1..] == [];
    }
  }

  lemma {:induction false} OversizeJustified(cfg: Config, root: Node, n: Node)
    requires Within(n, [root]) && NodeTokens(cfg)(n) > cfg.target
    ensures AllJustified(cfg, root, if Pieces(cfg, n) != [] then Pieces(cfg, n) else [Decl(n.start, n.end)])
    decreases Size(n), 1
  {
    PiecesJustified(cfg, root, n);
    PiecesExist(cfg, n);
    if Pieces(cfg, n) == [] {
      assert OversizeLeaf(cfg, n, Decl(n.start, n.end));
      assert [Decl(n.start, n.end)][1..] == [];
    }
  }

  lemma {:induction false} WalkJustified(cfg: Config, root: Node, m: Node, j: nat, k: nat, prev: nat, hi: nat)
    requires Within(m, [root]) && j <= k <= |Top(cfg.kinds, m.named)|
    requires Weight(NodeTokens(cfg), Top(cfg.kinds, m.named)[j..k]) <= cfg.target
    ensures AllJustified(cfg, root, Walk(cfg, Top(cfg.kinds, m.named)[k..], prev, hi, Top(cfg.kinds, m.named)[j..k]))
    decreases ForestSize(Top(cfg.kinds, m.named)[k..]), 3
  {
    var all := Top(cfg.kinds, m.named);
    FlushJustified(cfg, root, m, j, k);
    var flushed := FlushPieces(all[j..k]);
    if k < |all| {
      assert all[k..][0] == all[k];
      var gap := GapPieces(cfg, prev, all[k].start);
      GapJustified(cfg, root, prev, all[k].start);
      if gap == [] {
        PlaceJustified(cfg, root, m, j, k, hi);
      } else {
        assert all[k..k] == [];
        PlaceJustified(cfg, root, m, k, k, hi);
        AllJustifiedConcat(cfg, root, flushed, gap);
        AllJustifiedConcat(cfg, root, flushed + gap, Place(cfg, all[k..], hi, []));
      }
    } else {
      GapJustified(cfg, root, prev, hi);
      AllJustifiedConcat(cfg, root, flushed, GapPieces(cfg, prev, hi));
    }
  }

  lemma {:induction false} Windows(all: seq<Node>, j: nat, k: nat)
    requires j <= k < |all|
    ensures all[k..][0] == all[k] && all[k..][1..] == all[k + 1..]
    ensures all[j..k + 1] == all[j..k] + [all[k]]
    ensures all[k..k + 1] == [all[k]] && all[k + 1..k + 1] == []
  {
  }

  lemma {:induction false} PlaceOversizeJustified(cfg: Config, root: Node, nodes: seq<Node>, hi: nat,
                                                  pending: seq<Node>)
    requires nodes != [] && NodeTokens(cfg)(nodes[0]) > cfg.target
    requires AllJustified(cfg, root, FlushPieces(pending))
    requires AllJustified(cfg, root, if Pieces(cfg, nodes[0]) != [] then Pieces(cfg, nodes[0])
              else [Decl(nodes[0].start, nodes[0].end)])
    requires AllJustified(cfg, root, Walk(cfg, nodes[1..], nodes[0].end, hi, []))
    ensures AllJustified(cfg, root, Place(cfg, nodes, hi, pending))
  {
    var n := nodes[0];
    var inner := if Pieces(cfg, n) != [] then Pieces(cfg, n) else [Decl(n.start, n.end)];
    AllJustifiedConcat(cfg, root, FlushPieces(pending), inner);
    AllJustifiedConcat(cfg, root, FlushPieces(pending) + inner, Walk(cfg, nodes[1..], n.end, hi, []));
  }

  lemma {:induction false} PlaceFullJustified(cfg: Config, root: Node, nodes: seq<Node>, hi: nat, pending: seq<Node>)
    requires nodes != [] && NodeTokens(cfg)(nodes[0]) <= cfg.target
    requires pending != [] && Weight(NodeTokens(cfg), pending) + NodeTokens(cfg)(nodes[0]) > cfg.target
    requires AllJustified(cfg, root, FlushPieces(pending))
    requires AllJustified(cfg, root, Walk(cfg, nodes[1..], nodes[0].end, hi, [nodes[0]]))
    ensures AllJustified(cfg, root, Place(cfg, nodes, hi, pending))
  {
    AllJustifiedConcat(cfg, root, FlushPieces(pending), Walk(cfg, nodes[1..], nodes[0].end, hi, [nodes[0]]));
  }

  lemma {:induction false} PlaceJustified(cfg: Config, root: Node, m: Node, j: nat, k: nat, hi: nat)
    requires Within(m, [root]) && j <= k < |Top(cfg.kinds, m.named)|
    requires Weight(NodeTokens(cfg), Top(cfg.kinds, m.named)[j..k]) <= cfg.target
    ensures AllJustified(cfg, root, Place(cfg, Top(cfg.kinds, m.named)[k..], hi, Top(cfg.kinds, m.named)[j..k]))
    decreases ForestSize(Top(cfg.kinds, m.named)[k..]), 2
  {
    var all := Top(cfg.kinds, m.named);
    FlushJustified(cfg, root, m, j, k);
    Windows(all, j, k);
    if NodeTokens(cfg)(all[k]) > cfg.target {
      WalkJustified(cfg, root, m, k + 1, k + 1, all[k].end, hi);
      TopFindsAll(cfg.kinds, m.named, all[k]);
      WithinTrans(all[k], m, [root]);
      OversizeJustified(cfg, root, all[k]);
      PlaceOversizeJustified(cfg, root, all[k..], hi, all[j..k]);
    } else {
      MergeJustified(cfg, root, m, j, k, hi);
    }
  }

  lemma {:induction false} MergeJustified(cfg: Config, root: Node, m: Node, j: nat, k: nat, hi: nat)
    requires Within(m, [root]) && j <= k < |Top(cfg.kinds, m.named)|
    requires Weight(NodeTokens(cfg), Top(cfg.kinds, m.named)[j..k]) <= cfg.target
    requires NodeTokens(cfg)(Top(cfg.kinds, m.named)[k]) <= cfg.target
    ensures AllJustified(cfg, root, Place(cfg, Top(cfg.kinds, m.named)[k..], hi, Top(cfg.kinds, m.named)[j..k]))
    decreases ForestSize(Top(cfg.kinds, m.named)[k..]), 1
  {
    var all, w := Top(cfg.kinds, m.named), NodeTokens(cfg);
    if all[j..k] != [] && Weight(w, all[j..k]) + w(all[k]) > cfg.target {
      FullJustified(cfg, root, m, j, k, hi);
    } else {
      AddJustified(cfg, root, m, j, k, hi);
    }
  }

  // The open group is full: it is flushed and declaration k opens the next.
  lemma {:induction false} FullJustified(cfg: Config, root: Node, m: Node, j: nat, k: nat, hi: nat)
    requires Within(m, [root]) && j < k < |Top(cfg.kinds, m.named)|
    requires Weight(NodeTokens(cfg), Top(cfg.kinds, m.named)[j..k]) <= cfg.target
    requires NodeTokens(cfg)(Top(cfg.kinds, m.named)[k]) <= cfg.target
    requires Weight(NodeTokens(cfg), Top(cfg.kinds, m.named)[j..k])
              + NodeTokens(cfg)(Top(cfg.kinds, m.named)[k]) > cfg.target
    ensures AllJustified(cfg, root, Place(cfg, Top(cfg.kinds, m.named)[k..], hi, Top(cfg.kinds, m.named)[j..k]))
    decreases ForestSize(Top(cfg.kinds, m.named)[k..]), 0
  {
    var all := Top(cfg.kinds, m.named);
    Windows(all, j, k);
    assert AllJustified(cfg, root, Walk(cfg, all[k + 1..], all[k].end, hi, [all[k]])) by {
      WeightSnoc(NodeTokens(cfg), [], all[k]);
      assert [] + [all[k]] == [all[k]];
      WalkJustified(cfg, root, m, k, k + 1, all[k].end, hi);
    }
    assert AllJustified(cfg, root, FlushPieces(all[j..k])) by {
      FlushJustified(cfg, root, m, j, k);
    }
    PlaceFullJustified(cfg, root, all[k..], hi, all[j..k]);
  }

  // Declaration k joins the open group.
  lemma {:induction false} AddJustified(cfg: Config, root: Node, m: Node, j: nat, k: nat, hi: nat)
    requires Within(m, [root]) && j <= k < |Top(cfg.kinds, m.named)|
    requires NodeTokens(cfg)(Top(cfg.kinds, m.named)[k]) <= cfg.target
    requires j == k || Weight(NodeTokens(cfg), Top(cfg.kinds, m.named)[j..k])
              + NodeTokens(cfg)(Top(cfg.kinds, m.named)[k]) <= cfg.target
    ensures AllJustified(cfg, root, Place(cfg, Top(cfg.kinds, m.named)[k..], hi, Top(cfg.kinds, m.named)[j..k]))
    decreases ForestSize(Top(cfg.kinds, m.named)[k..]), 0
  {
    var all := Top(cfg.kinds, m.named);
    Windows(all, j, k);
    WeightSnoc(NodeTokens(cfg), all[j..k], all[k]);
    WalkJustified(cfg, root, m, j, k + 1, all[k].end, hi);
  }

  // Every chunk keeps the budget or has a reason not to.
  lemma {:induction false} PiecesKeepBudget(cfg: Config, root: Node, k: nat)
    requires k < |Pieces(cfg, root)|
    ensures Justified(cfg, root, Pieces(cfg, root)[k])
  {
    PiecesJustified(cfg, root, root);
    AllJustifiedAt(cfg, root, Pieces(cfg, root), k);
  }
}
