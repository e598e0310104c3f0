// Structural chunking over a syntax tree: the outermost declarations below a
// node are merged greedily, oversize ones are entered, and the text between
// them is kept.  Positions are character offsets into the source.

module AstChunker {
  import opened Text
  import opened Chunks
  import opened SyntaxTree
  import opened Packing

  datatype Config = Config(
    src: string, filePath: string, language: string, kinds: set<string>, tok: string -> nat, target: nat)

  // The source range a chunk is cut from: text between declarations, or a
  // declaration (possibly several, merged).
  datatype Piece = Gap(start: nat, end: nat) | Decl(start: nat, end: nat)

  function NodeTokens(cfg: Config): Node -> nat {
    (n: Node) => cfg.tok(Slice(cfg.src, n.start, n.end))
  }

  function LastByte(b: nat, e: nat): nat {
    if e > b then e - 1 else b
  }

  function ChunkOf(cfg: Config, p: Piece): ChunkSpec {
    ChunkSpec(cfg.filePath, cfg.language, Row(cfg.src, p.start) + 1,
              Row(cfg.src, if p.Gap? then LastByte(p.start, p.end) else p.end) + 1,
              Slice(cfg.src, p.start, p.end))
  }

  function ChunksOf(cfg: Config, ps: seq<Piece>): seq<ChunkSpec> {
    seq(|ps|, i requires 0 <= i < |ps| => ChunkOf(cfg, ps[i]))
  }

  lemma {:induction false} ChunksOfConcat(cfg: Config, a: seq<Piece>, b: seq<Piece>)
    ensures ChunksOf(cfg, a + b) == ChunksOf(cfg, a) + ChunksOf(cfg, b)
  {
  }

  function FlushPieces(pending: seq<Node>): seq<Piece> {
    if pending == [] then [] else [Decl(pending[0].start, pending[|pending| - 1].end)]
  }

  function GapPieces(cfg: Config, b1: nat, b2: nat): seq<Piece> {
    if b1 >= b2 || Blank(Slice(cfg.src, b1, b2)) then [] else [Gap(b1, b2)]
  }

  // The pieces of one node.
  function Pieces(cfg: Config, parent: Node): seq<Piece>
    decreases Size(parent), 0
  {
    var nodes := Top(cfg.kinds, parent.named);
    if nodes == [] then [] else Walk(cfg, nodes, parent.start, parent.end, [])
  }

  // The pieces still to come when `nodes` are the declarations not yet
  // visited, text is accounted for up to `prev`, and `pending` is being merged.
  function Walk(cfg: Config, nodes: seq<Node>, prev: nat, hi: nat, pending: seq<Node>): seq<Piece>
    decreases ForestSize(nodes), 2
  {
    if nodes == [] then FlushPieces(pending) + GapPieces(cfg, prev, hi)
    else
      var gap := GapPieces(cfg, prev, nodes[0].start);
      if gap == [] then Place(cfg, nodes, hi, pending)
      else FlushPieces(pending) + gap + Place(cfg, nodes, hi, [])
  }

  function Place(cfg: Config, nodes: seq<Node>, hi: nat, pending: seq<Node>): seq<Piece>
    requires nodes != []
    decreases ForestSize(nodes), 1
  {
    var n := nodes[0];
    var toks := NodeTokens(cfg)(n);
    if toks > cfg.target then
      var sub := Pieces(cfg, n);
      FlushPieces(pending) + (if sub != [] then sub else [Decl(n.start, n.end)]) + Walk(cfg, nodes[1..], n.end, hi, [])
    else if pending != [] && Weight(NodeTokens(cfg), pending) + toks > cfg.target then
      FlushPieces(pending) + Walk(cfg, nodes[1..], n.end, hi, [n])
    else
      Walk(cfg, nodes[1..], n.end, hi, pending + [n])
  }

  // ---- The steps of a walk, over chunks already emitted ----

  lemma {:induction false} GapStep(cfg: Config, nodes: seq<Node>, prev: nat, hi: nat, pending: seq<Node>,
                                   done: seq<ChunkSpec>)
    requires nodes != []
    ensures
      var gap := GapPieces(cfg, prev, nodes[0].start);
      done + ChunksOf(cfg, Walk(cfg, nodes, prev, hi, pending))
      == if gap == [] then done + ChunksOf(cfg, Place(cfg, nodes, hi, pending))
         else done + ChunksOf(cfg, FlushPieces(pending) + gap) + ChunksOf(cfg, Place(cfg, nodes, hi, []))
  {
    var gap := GapPieces(cfg, prev, nodes[0].start);
    if gap != [] {
      ChunksOfConcat(cfg, FlushPieces(pending) + gap, Place(cfg, nodes, hi, []));
    }
  }

  lemma {:induction false} OversizeStep(cfg: Config, nodes: seq<Node>, hi: nat, pending: seq<Node>,
                                        done: seq<ChunkSpec>)
    requires nodes != [] && NodeTokens(cfg)(nodes[0]) > cfg.target
    ensures
      var n, sub := nodes[0], Pieces(cfg, nodes[0]);
      done + ChunksOf(cfg, Place(cfg, nodes, hi, pending))
      == done + ChunksOf(cfg, FlushPieces(pending))
         + (if sub != [] then ChunksOf(cfg, sub) else [ChunkOf(cfg, Decl(n.start, n.end))])
         + ChunksOf(cfg, Walk(cfg, nodes[1..], n.end, hi, []))
  {
    var n, sub := nodes[0], Pieces(cfg, nodes[0]);
    var inner := if sub != [] then sub else [Decl(n.start, n.end)];
    var rest := Walk(cfg, nodes[1..], n.end, hi, []);
    assert ChunksOf(cfg, Place(cfg, nodes, hi, pending))
        == ChunksOf(cfg, FlushPieces(pending)) + ChunksOf(cfg, inner) + ChunksOf(cfg, rest) by {
      assert Place(cfg, nodes, hi, pending) == FlushPieces(pending) + inner + rest;
      ChunksOfThree(cfg, FlushPieces(pending), inner, rest);
    }
    Regroup(done, ChunksOf(cfg, FlushPieces(pending)), ChunksOf(cfg, inner), ChunksOf(cfg, rest));
    assert ChunksOf(cfg, [Decl(n.start, n.end)]) == [ChunkOf(cfg, Decl(n.start, n.end))];
  }

  lemma {:induction false} ChunksOfThree(cfg: Config, a: seq<Piece>, b: seq<Piece>, c: seq<Piece>)
    ensures ChunksOf(cfg, a + b + c) == ChunksOf(cfg, a) + ChunksOf(cfg, b) + ChunksOf(cfg, c)
  {
    ChunksOfConcat(cfg, a, b);
    ChunksOfConcat(cfg, a + b, c);
  }

  lemma {:induction false} Regroup<T>(a: seq<T>, b: seq<T>, c: seq<T>, d: seq<T>)
    ensures a + (b + c + d) == a + b + c + d
  {
  }

  lemma {:induction false} EndStep(cfg: Config, prev: nat, hi: nat, pending: seq<Node>, done: seq<ChunkSpec>)
    ensures done + ChunksOf(cfg, Walk(cfg, [], prev, hi, pending))
         == done + ChunksOf(cfg, FlushPieces(pending)) + ChunksOf(cfg, GapPieces(cfg, prev, hi))
  {
    ChunksOfConcat(cfg, FlushPieces(pending), GapPieces(cfg, prev, hi));
    assert Walk(cfg, [], prev, hi, pending) == FlushPieces(pending) + GapPieces(cfg, prev, hi);
  }

  lemma {:induction false} FullStep(cfg: Config, nodes: seq<Node>, hi: nat, pending: seq<Node>, done: seq<ChunkSpec>)
    requires nodes != [] && NodeTokens(cfg)(nodes[0]) <= cfg.target
    requires pending != [] && Weight(NodeTokens(cfg), pending) + NodeTokens(cfg)(nodes[0]) > cfg.target
    ensures done + ChunksOf(cfg, Place(cfg, nodes, hi, pending))
         == done + ChunksOf(cfg, FlushPieces(pending))
             + ChunksOf(cfg, Walk(cfg, nodes[1..], nodes[0].end, hi, [nodes[0]]))
  {
    ChunksOfConcat(cfg, FlushPieces(pending), Walk(cfg, nodes[1..], nodes[0].end, hi, [nodes[0]]));
  }

  lemma {:induction false} WeightSnoc(w: Node -> nat, xs: seq<Node>, x: Node)
    ensures Weight(w, xs + [x]) == Weight(w, xs) + w(x)
  {
    WeightConcat(w, xs, [x]);
    assert [x][1..] == [];
  }

  // ---- The imperative form ----

  class SubtreeWalk {
    const cfg: Config
    var chunks: seq<ChunkSpec>
    var pending: seq<Node>
    var pendingTokens: nat
    var pendingStartByte: Option<nat>
    var pendingEndByte: Option<nat>
    var pendingStartLine: Option<nat>
    var pendingEndLine: Option<nat>

    // The accumulators always describe the same run of nodes.
    ghost predicate Valid()
      reads this
    {
      && pendingTokens == Weight(NodeTokens(cfg), pending)
      && if pending == [] then
           pendingStartByte.None? && pendingEndByte.None? && pendingStartLine.None? && pendingEndLine.None?
         else
           && pendingStartByte == Some(pending[0].start)
           && pendingEndByte == Some(pending[|pending| - 1].end)
           && pendingStartLine == Some(Row(cfg.src, pending[0].start) + 1)
           && pendingEndLine == Some(Row(cfg.src, pending[|pending| - 1].end) + 1)
    }

    constructor (cfg: Config)
      ensures this.cfg == cfg && Valid() && chunks == [] && pending == []
    {
      this.cfg := cfg;
      chunks, pending, pendingTokens := [], [], 0;
      pendingStartByte, pendingEndByte, pendingStartLine, pendingEndLine := None, None, None, None;
    }

    // What the walk will have emitted when it is through with these nodes.
    ghost function Outlook(nodes: seq<Node>, prev: nat, hi: nat): seq<ChunkSpec>
      reads this
    {
      chunks + ChunksOf(cfg, Walk(cfg, nodes, prev, hi, pending))
    }

    method FlushPending()
      requires Valid()
      modifies this
      ensures Valid() && pending == []
      ensures chunks == old(chunks) + ChunksOf(cfg, FlushPieces(old(pending)))
    {
      if pending != [] {
        var text := Slice(cfg.src, pendingStartByte.value, pendingEndByte.value);
        chunks := chunks + [ChunkSpec(cfg.filePath, cfg.language, pendingStartLine.value, pendingEndLine.value, text)];
        pending, pendingTokens := [], 0;
        pendingStartByte, pendingEndByte, pendingStartLine, pendingEndLine := None, None, None, None;
      }
    }

    method EmitGap(b1: nat, b2: nat)
      requires Valid()
      modifies this
      ensures Valid()
      ensures var gap := GapPieces(cfg, b1, b2);
              if gap == [] then chunks == old(chunks) && pending == old(pending)
              else chunks == old(chunks) + ChunksOf(cfg, FlushPieces(old(pending)) + gap) && pending == []
    {
      if b1 >= b2 {
        return;
      }
      var text := Slice(cfg.src, b1, b2);
      if Blank(text) {
        return;
      }
      ChunksOfConcat(cfg, FlushPieces(pending), GapPieces(cfg, b1, b2));
      FlushPending();
      var sl := Row(cfg.src, b1) + 1;
      var elInclusive := Row(cfg.src, if b1 >= b2 - 1 then b1 else b2 - 1) + 1;
      chunks := chunks + [ChunkSpec(cfg.filePath, cfg.language, sl, elInclusive, text)];
    }

    // One pass of the loop over the declarations.
    method Visit(prevEnd: nat, nodes: seq<Node>, hi: nat)
      requires Valid() && nodes != []
      modifies this
      ensures Valid()
      ensures Outlook(nodes[1..], nodes[0].end, hi) == old(Outlook(nodes, prevEnd, hi))
      decreases ForestSize(nodes), 2
    {
      GapStep(cfg, nodes, prevEnd, hi, pending, chunks);
      EmitGap(prevEnd, nodes[0].start);
      var n := nodes[0];
      var text := Slice(cfg.src, n.start, n.end);
      var toks := cfg.tok(text);
      var sl, el := Row(cfg.src, n.start) + 1, Row(cfg.src, n.end) + 1;
      if toks > cfg.target {
        Enter(nodes, hi, text, sl, el);
      } else {
        Merge(nodes, hi, toks, sl, el);
      }
    }

    // An oversize declaration: close the open run, then chunk its inside.
    method Enter(nodes: seq<Node>, hi: nat, text: string, sl: nat, el: nat)
      requires Valid() && nodes != [] && NodeTokens(cfg)(nodes[0]) > cfg.target
      requires ChunkSpec(cfg.filePath, cfg.language, sl, el, text) == ChunkOf(cfg, Decl(nodes[0].start, nodes[0].end))
      modifies this
      ensures Valid() && pending == []
      ensures Outlook(nodes[1..], nodes[0].end, hi) == old(chunks) + ChunksOf(cfg, Place(cfg, nodes, hi, old(pending)))
      decreases ForestSize(nodes), 1
    {
      OversizeStep(cfg, nodes, hi, pending, chunks);
      FlushPending();
      var subChunks := ChunkSubtree(cfg, nodes[0]);
      if subChunks != [] {
        chunks := chunks + subChunks;
      } else {
        chunks := chunks + [ChunkSpec(cfg.filePath, cfg.language, sl, el, text)];
      }
    }

    // A declaration within the budget: join the open run, or close it and open another.
    method Merge(nodes: seq<Node>, hi: nat, toks: nat, sl: nat, el: nat)
      requires Valid() && nodes != [] && toks == NodeTokens(cfg)(nodes[0]) <= cfg.target
      requires sl == Row(cfg.src, nodes[0].start) + 1 && el == Row(cfg.src, nodes[0].end) + 1
      modifies this
      ensures Valid()
      ensures Outlook(nodes[1..], nodes[0].end, hi) == old(chunks) + ChunksOf(cfg, Place(cfg, nodes, hi, old(pending)))
    {
      var n := nodes[0];
      if pending != [] && pendingTokens + toks > cfg.target {
        FullStep(cfg, nodes, hi, pending, chunks);
        FlushPending();
        assert pending + [n] == [n];
      }
      AddPending(n, toks, sl, el);
    }

    // After the last declaration: what is pending, then the text up to the end.
    method Finish(prevEnd: nat, hi: nat)
      requires Valid()
      modifies this
      ensures chunks == old(Outlook([], prevEnd, hi))
    {
      EndStep(cfg, prevEnd, hi, pending, chunks);
      FlushPending();
      EmitGap(prevEnd, hi);
    }

    method AddPending(n: Node, toks: nat, sl: nat, el: nat)
      requires Valid() && toks == NodeTokens(cfg)(n)
      requires sl == Row(cfg.src, n.start) + 1 && el == Row(cfg.src, n.end) + 1
      modifies this
      ensures Valid() && chunks == old(chunks) && pending == old(pending) + [n]
    {
      if pending == [] {
        pendingStartByte, pendingStartLine := Some(n.start), Some(sl);
      }
      WeightSnoc(NodeTokens(cfg), pending, n);
      pending := pending + [n];
      pendingEndByte, pendingEndLine := Some(n.end), Some(el);
      pendingTokens := pendingTokens + toks;
    }
  }

  method ChunkSubtree(cfg: Config, parent: Node) returns (chunks: seq<ChunkSpec>)
    ensures chunks == ChunksOf(cfg, Pieces(cfg, parent))
    decreases Size(parent), 0
  {
    var splittables := FindTopSplittables(parent, cfg.kinds);
    if splittables == [] {
      return [];
    }
    var walk := new SubtreeWalk(cfg);
    var prevEnd := parent.start;
    ghost var goal := ChunksOf(cfg, Pieces(cfg, parent));
    assert walk.Outlook(splittables, prevEnd, parent.end) == goal;
    var i := 0;
    assert splittables[0..] == splittables;
    while i < |splittables|
      invariant 0 <= i <= |splittables|
      invariant fresh(walk) && walk.cfg == cfg && walk.Valid()
      invariant walk.Outlook(splittables[i..], prevEnd, parent.end) == goal
    {
      var left := splittables[i..];
      SuffixSize(splittables, i);
      walk.Visit(prevEnd, left, parent.end);
      assert left[1..] == splittables[i + 1..];
      prevEnd := splittables[i].end;
      i := i + 1;
    }
    assert splittables[i..] == [];
    walk.Finish(prevEnd, parent.end);
    chunks := walk.chunks;
  }

  lemma {:induction false} SuffixSize(ns: seq<Node>, i: nat)
    requires i <= |ns|
    ensures ForestSize(ns[i..]) <= ForestSize(ns)
  {
    ForestSizeConcat(ns[..i], ns[i..]);
    assert ns[..i] + ns[i..] == ns;
  }
}
