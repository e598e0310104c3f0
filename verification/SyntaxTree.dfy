// Syntax trees as the structural chunker reads them: nodes with a kind, an
// offset range and their named children, and the search for declarations.

module SyntaxTree {

  datatype Node = Node(kind: string, start: nat, end: nat, named: seq<Node>)

  // Named children lie in order inside their parent and do not overlap.
  ghost predicate WellFormed(n: Node)
    decreases n, 1
  {
    n.start <= n.end && Forest(n.named, n.start, n.end)
  }

  ghost predicate Forest(ns: seq<Node>, lo: nat, hi: nat)
    decreases ns, 0
  {
    if ns == [] then lo <= hi
    else lo <= ns[0].start && WellFormed(ns[0]) && Forest(ns[1..], ns[0].end, hi)
  }

  function Size(n: Node): (r: nat)
    ensures r > 0
    decreases n, 1
  {
    1 + ForestSize(n.named)
  }

  function ForestSize(ns: seq<Node>): nat
    decreases ns, 0
  {
    if ns == [] then 0 else Size(ns[0]) + ForestSize(ns[1..])
  }

  // d is one of ns or a descendant of one.
  ghost predicate Within(d: Node, ns: seq<Node>)
    decreases ns
  {
    ns != [] && (d == ns[0] || Within(d, ns[0].named) || Within(d, ns[1..]))
  }

  // The outermost nodes of the given kinds, in source order.
  function Top(kinds: set<string>, ns: seq<Node>): (r: seq<Node>)
    ensures ForestSize(r) <= ForestSize(ns)
    decreases ns
  {
    if ns == [] then []
    else
      var first := if ns[0].kind in kinds then [ns[0]] else Top(kinds, ns[0].named);
      ForestSizeConcat(first, Top(kinds, ns[1..]));
      first + Top(kinds, ns[1..])
  }

  lemma {:induction false} ForestSizeConcat(a: seq<Node>, b: seq<Node>)
    ensures ForestSize(a + b) == ForestSize(a) + ForestSize(b)
  {
    if a == [] {
      assert a + b == b;
    } else {
      ForestSizeConcat(a[1..], b);
      assert (a + b)[1..] == a[1..] + b;
    }
  }

  lemma {:induction false} ForestConcat(a: seq<Node>, b: seq<Node>, lo: nat, mid: nat, hi: nat)
    requires Forest(a, lo, mid) && Forest(b, mid, hi)
    ensures Forest(a + b, lo, hi)
  {
    if a == [] {
      assert a + b == b;
    } else {
      ForestConcat(a[1..], b, a[0].end, mid, hi);
      assert (a + b)[1..] == a[1..] + b;
    }
  }

  lemma {:induction false} ForestBounds(ns: seq<Node>, lo: nat, hi: nat)
    requires Forest(ns, lo, hi)
    ensures lo <= hi
  {
    if ns != [] {
      ForestBounds(ns[1..], ns[0].end, hi);
    }
  }

  // The declarations found below a node are again ordered, disjoint and well formed.
  lemma {:induction false} TopIsForest(kinds: set<string>, ns: seq<Node>, lo: nat, hi: nat)
    requires Forest(ns, lo, hi)
    ensures Forest(Top(kinds, ns), lo, hi)
    decreases ns
  {
    if ns != [] {
      var n := ns[0];
      TopIsForest(kinds, ns[1..], n.end, hi);
      if n.kind in kinds {
        assert [n][1..] == [];
        ForestConcat([n], Top(kinds, ns[1..]), lo, n.end, hi);
      } else {
        TopIsForest(kinds, n.named, n.start, n.end);
        ForestConcat(Top(kinds, n.named), Top(kinds, ns[1..]), n.start, n.end, hi);
      }
    }
  }

  lemma {:induction false} WithinConcat(d: Node, a: seq<Node>, b: seq<Node>)
    ensures Within(d, a + b) <==> Within(d, a) || Within(d, b)
    decreases |a|
  {
    if a == [] {
      assert a + b == b;
    } else {
      WithinConcat(d, a[1..], b);
      assert (a + b)[1..] == a[1..] + b;
    }
  }

  // Every node of a wanted kind is found or lies inside a found one, and
  // everything found is a node of the forest of a wanted kind.
  lemma {:induction false} TopFindsAll(kinds: set<string>, ns: seq<Node>, d: Node)
    ensures Within(d, ns) && d.kind in kinds ==> Within(d, Top(kinds, ns))
    ensures d in Top(kinds, ns) ==> d.kind in kinds && Within(d, ns)
    decreases ns
  {
    if ns != [] {
      TopFindsAll(kinds, ns[1..], d);
      TopFindsAll(kinds, ns[0].named, d);
      var first := if ns[0].kind in kinds then [ns[0]] else Top(kinds, ns[0].named);
      WithinConcat(d, first, Top(kinds, ns[1..]));
      assert first == [ns[0]] ==> first[1..] == [];
    }
  }

  function FoundAt(kinds: set<string>, n: Node): seq<Node> {
    if n.kind in kinds then [n] else Top(kinds, n.named)
  }

  lemma {:induction false} TopStep(kinds: set<string>, ns: seq<Node>, i: nat, out: seq<Node>)
    requires i < |ns|
    ensures out + Top(kinds, ns[i..]) == out + FoundAt(kinds, ns[i]) + Top(kinds, ns[i + 1..])
  {
    assert ns[i..][1..] == ns[i + 1..] && ns[i..][0] == ns[i];
  }

  // The walk appends to one list that its recursive calls share.
  class SplittableCollector {
    const kinds: set<string>
    var out: seq<Node>

    constructor (kinds: set<string>)
      ensures this.kinds == kinds && out == []
    {
      this.kinds := kinds;
      out := [];
    }

    method Walk(node: Node)
      modifies this
      ensures out == old(out) + Top(kinds, node.named)
      decreases node, 0
    {
      ghost var total := out + Top(kinds, node.named);
      var i := 0;
      assert node.named[0..] == node.named;
      while i < |node.named|
        invariant 0 <= i <= |node.named|
        invariant out + Top(kinds, node.named[i..]) == total
      {
        var child := node.named[i];
        TopStep(kinds, node.named, i, out);
        Visit(child);
        i := i + 1;
      }
    }

    // One child: keep it, or look inside it.
    method Visit(child: Node)
      modifies this
      ensures out == old(out) + FoundAt(kinds, child)
      decreases child, 1
    {
      if child.kind in kinds {
        out := out + [child];
      } else {
        Walk(child);
      }
    }
  }

  method FindTopSplittables(parent: Node, kinds: set<string>) returns (out: seq<Node>)
    ensures out == Top(kinds, parent.named)
  {
    var collector := new SplittableCollector(kinds);
    collector.Walk(parent);
    out := collector.out;
  }
}
