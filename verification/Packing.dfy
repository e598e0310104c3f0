// Order-preserving packing of weighted items under a cap, and why packing
// greedily never uses more groups than any other way of doing it.

module Packing {

  function Weight<T>(w: T -> nat, xs: seq<T>): nat {
    if xs == [] then 0 else w(xs[0]) + Weight(w, xs[1..])
  }

  function Flatten<T>(gs: seq<seq<T>>): seq<T> {
    if gs == [] then [] else gs[0] + Flatten(gs[1..])
  }

  // gs cuts xs, in order, into groups that each stay within the cap.
  ghost predicate Packs<T(!new)>(w: T -> nat, cap: nat, xs: seq<T>, gs: seq<seq<T>>) {
    Flatten(gs) == xs && forall i | 0 <= i < |gs| :: Weight(w, gs[i]) <= cap
  }

  // Fill the open group until the next item no longer fits, then open another.
  function Greedy<T>(w: T -> nat, cap: nat, open: seq<T>, xs: seq<T>): seq<seq<T>>
    decreases |xs|
  {
    if xs == [] then (if open == [] then [] else [open])
    else if open != [] && Weight(w, open) + w(xs[0]) > cap then [open] + Greedy(w, cap, [xs[0]], xs[1..])
    else Greedy(w, cap, open + [xs[0]], xs[1..])
  }

  lemma {:induction false} WeightConcat<T>(w: T -> nat, a: seq<T>, b: seq<T>)
    ensures Weight(w, a + b) == Weight(w, a) + Weight(w, b)
  {
    if a == [] {
      assert a + b == b;
    } else {
      WeightConcat(w, a[1..], b);
      assert (a + b)[1..] == a[1..] + b;
    }
  }

  lemma {:induction false} WeightPrefix<T>(w: T -> nat, xs: seq<T>, k: nat)
    requires k <= |xs|
    ensures Weight(w, xs[..k]) <= Weight(w, xs)
  {
    WeightConcat(w, xs[..k], xs[k..]);
    assert xs[..k] + xs[k..] == xs;
  }

  // Greedy packing is a packing.
  lemma {:induction false} GreedyPacks<T(!new)>(w: T -> nat, cap: nat, open: seq<T>, xs: seq<T>)
    requires Weight(w, open) <= cap
    requires forall i | 0 <= i < |xs| :: w(xs[i]) <= cap
    ensures Packs(w, cap, open + xs, Greedy(w, cap, open, xs))
    decreases |xs|
  {
    if xs == [] {
      assert open + xs == open;
      if open != [] {
        assert Flatten([open]) == open;
      }
    } else {
      WeightConcat(w, open, [xs[0]]);
      if open != [] && Weight(w, open) + w(xs[0]) > cap {
        GreedyPacks(w, cap, [xs[0]], xs[1..]);
        assert [xs[0]] + xs[1..] == xs;
        var gs := Greedy(w, cap, [xs[0]], xs[1..]);
        assert ([open] + gs)[1..] == gs;
      } else {
        GreedyPacks(w, cap, open + [xs[0]], xs[1..]);
        assert open + [xs[0]] + xs[1..] == open + xs;
      }
    }
  }

  // Each group but the last is full: the first item of the next does not fit.
  ghost predicate Tight<T>(w: T -> nat, cap: nat, gs: seq<seq<T>>) {
    && (forall k | 0 <= k < |gs| :: gs[k] != [])
    && (forall k | 0 <= k < |gs| - 1 :: Weight(w, gs[k]) + w(gs[k + 1][0]) > cap)
  }

  lemma {:induction false} GreedyIsTight<T>(w: T -> nat, cap: nat, open: seq<T>, xs: seq<T>)
    ensures Tight(w, cap, Greedy(w, cap, open, xs))
    ensures open != [] ==> Greedy(w, cap, open, xs) != [] && Greedy(w, cap, open, xs)[0][0] == open[0]
    decreases |xs|
  {
    if xs != [] {
      if open != [] && Weight(w, open) + w(xs[0]) > cap {
        GreedyIsTight(w, cap, [xs[0]], xs[1..]);
      } else {
        GreedyIsTight(w, cap, open + [xs[0]], xs[1..]);
      }
    }
  }

  // Dropping the first k items of a packing costs no extra group.
  lemma {:induction false} DropItems<T(!new)>(w: T -> nat, cap: nat, xs: seq<T>, gs: seq<seq<T>>, k: nat)
    returns (hs: seq<seq<T>>)
    requires Packs(w, cap, xs, gs) && k <= |xs|
    ensures Packs(w, cap, xs[k..], hs) && |hs| <= |gs|
    decreases |gs|
  {
    if gs == [] {
      hs := gs;
    } else if k <= |gs[0]| {
      hs := [gs[0][k..]] + gs[1..];
      WeightConcat(w, gs[0][..k], gs[0][k..]);
      assert gs[0] == gs[0][..k] + gs[0][k..];
      assert Flatten(hs) == gs[0][k..] + Flatten(gs[1..]);
    } else {
      assert xs[|gs[0]|..] == Flatten(gs[1..]);
      hs := DropItems(w, cap, Flatten(gs[1..]), gs[1..], k - |gs[0]|);
      assert Flatten(gs[1..])[k - |gs[0]|..] == xs[k..];
    }
  }

  // No packing of open + xs uses fewer groups than the greedy one.
  lemma {:induction false} GreedyIsMinimal<T(!new)>(w: T -> nat, cap: nat, open: seq<T>, xs: seq<T>, gs: seq<seq<T>>)
    requires Packs(w, cap, open + xs, gs)
    ensures |Greedy(w, cap, open, xs)| <= |gs|
    decreases |xs|, |gs|
  {
    if open + xs == [] {
    } else if gs == [] {
      assert false;
    } else if gs[0] == [] {
      assert Packs(w, cap, open + xs, gs[1..]);
      GreedyIsMinimal(w, cap, open, xs, gs[1..]);
    } else if xs == [] {
    } else if open != [] && Weight(w, open) + w(xs[0]) > cap {
      // the first group of gs cannot reach past the open one
      WeightConcat(w, open, [xs[0]]);
      if |gs[0]| > |open| {
        assert gs[0][..|open| + 1] == (open + xs)[..|open| + 1] == open + [xs[0]];
        WeightPrefix(w, gs[0], |open| + 1);
      }
      var hs := DropItems(w, cap, Flatten(gs[1..]), gs[1..], |open| - |gs[0]|);
      assert Flatten(gs[1..]) == (open + xs)[|gs[0]|..];
      assert (open + xs)[|gs[0]|..][|open| - |gs[0]|..] == (open + xs)[|open|..] == xs;
      assert [xs[0]] + xs[1..] == xs;
      GreedyIsMinimal(w, cap, [xs[0]], xs[1..], hs);
    } else {
      assert open + [xs[0]] + xs[1..] == open + xs;
      GreedyIsMinimal(w, cap, open + [xs[0]], xs[1..], gs);
    }
  }
}
