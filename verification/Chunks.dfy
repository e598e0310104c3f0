// The chunk record shared by every chunker, and small generic helpers.

module Chunks {
  import opened Text

  datatype Option<+T> = None | Some(value: T)

  // One chunk's positional and textual data, before embedding.
  datatype ChunkSpec = ChunkSpec(filePath: string, language: string, startLine: int, endLine: int, content: string)

  lemma {:induction false} CountedTwice<T>(s: seq<T>, i: nat, j: nat)
    requires i < j < |s|
    ensures s[i] == s[j] ==> multiset(s)[s[i]] >= 2
  {
    assert s == s[..i] + [s[i]] + s[i + 1..j] + [s[j]] + s[j + 1..];
  }

  lemma {:induction false} SubsetSize<T>(a: set<T>, b: set<T>)
    requires a <= b
    ensures |a| <= |b|
  {
    assert b == a + (b - a);
  }

  function Contents(cs: seq<ChunkSpec>): seq<string> {
    seq(|cs|, i requires 0 <= i < |cs| => cs[i].content)
  }

  // The database CHECK constraints on a stored chunk's line range.
  predicate LinesOk(c: ChunkSpec) {
    1 <= c.startLine <= c.endLine
  }

  // The non-white-space text of a list of chunks, in order.
  function InkOf(cs: seq<ChunkSpec>): string {
    Ink(Concat(Contents(cs)))
  }

  lemma {:induction false} InkOfConcat(a: seq<ChunkSpec>, b: seq<ChunkSpec>)
    ensures InkOf(a + b) == InkOf(a) + InkOf(b)
    decreases |a|
  {
    if a == [] {
      assert a + b == b;
    } else {
      InkOfConcat(a[1..], b);
      assert (a + b)[1..] == a[1..] + b;
      InkOfCons(a);
      InkOfCons(a + b);
    }
  }

  lemma {:induction false} InkOfCons(a: seq<ChunkSpec>)
    requires a != []
    ensures InkOf(a) == Ink(a[0].content) + InkOf(a[1..])
  {
    assert Contents(a)[1..] == Contents(a[1..]);
    InkConcat(a[0].content, Concat(Contents(a[1..])));
  }

  // The files a list of chunks comes from.
  function Paths(cs: seq<ChunkSpec>): set<string> {
    set i | 0 <= i < |cs| :: cs[i].filePath
  }

  lemma {:induction false} PathsConcat(a: seq<ChunkSpec>, b: seq<ChunkSpec>)
    ensures Paths(a + b) == Paths(a) + Paths(b)
  {
    var ab := a + b;
    forall p | p in Paths(a) ensures p in Paths(ab) {
      var i :| 0 <= i < |a| && a[i].filePath == p;
      assert ab[i].filePath == p;
    }
    forall p | p in Paths(b) ensures p in Paths(ab) {
      var i :| 0 <= i < |b| && b[i].filePath == p;
      assert ab[|a| + i].filePath == p;
    }
    forall p | p in Paths(ab) ensures p in Paths(a) + Paths(b) {
      var i :| 0 <= i < |ab| && ab[i].filePath == p;
      assert if i < |a| then ab[i] == a[i] else ab[i] == b[i - |a|];
    }
  }

  lemma {:induction false} PathsOfOneFile(cs: seq<ChunkSpec>, path: string)
    requires cs != [] && forall i | 0 <= i < |cs| :: cs[i].filePath == path
    ensures Paths(cs) == {path}
  {
    assert cs[0].filePath in Paths(cs);
  }
}
