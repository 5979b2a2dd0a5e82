/**
 * The reorder a drop performs, as a function on sequences: take the element
 * at `from` out, then put it back at `to` in the one-shorter remainder.
 */
module ColumnMove {
  import opened Sequences

  /** `s` without its element at `i`. */
  function RemoveAt<T>(s: seq<T>, i: nat): (r: seq<T>)
    requires i < |s|
    ensures |r| == |s| - 1
    ensures forall k :: 0 <= k < |r| ==> r[k] == if k < i then s[k] else s[k + 1]
  {
    s[..i] + s[i + 1..]
  }

  /** `s` with `x` placed at position `i`, the later elements shifted right. */
  function InsertAt<T>(s: seq<T>, i: nat, x: T): (r: seq<T>)
    requires i <= |s|
    ensures |r| == |s| + 1
    ensures forall k :: 0 <= k < |r| ==> r[k] == if k < i then s[k] else if k == i then x else s[k - 1]
  {
    s[..i] + [x] + s[i..]
  }

  /** Drag the element at `from` to position `to`. */
  function Move<T>(s: seq<T>, from: nat, to: nat): (r: seq<T>)
    requires from < |s| && to < |s|
    ensures |r| == |s|
    ensures r[to] == s[from]
  {
    InsertAt(RemoveAt(s, from), to, s[from])
  }

  /**
   * Where the element at position `k` after a move came from: the dragged
   * element lands on `to`, the block between the two positions shifts one
   * step towards `from`, and everything outside that block stays put.
   */
  function MoveSource(from: nat, to: nat, k: nat): nat {
    if k == to then from
    else if from < to && from <= k < to then k + 1
    else if to < from && to < k <= from then k - 1
    else k
  }

  /** The move, position by position, agrees with `MoveSource`. */
  lemma MoveAt<T>(s: seq<T>, from: nat, to: nat, k: nat)
    requires from < |s| && to < |s| && k < |s|
    ensures MoveSource(from, to, k) < |s|
    ensures Move(s, from, to)[k] == s[MoveSource(from, to, k)]
  {
    var r := RemoveAt(s, from);
    if k < to {
      assert Move(s, from, to)[k] == r[k];
    } else if k > to {
      assert Move(s, from, to)[k] == r[k - 1];
    }
  }

  /** Different positions after a move come from different positions before it. */
  lemma MoveSourceInjective(from: nat, to: nat, i: nat, j: nat)
    requires i != j
    ensures MoveSource(from, to, i) != MoveSource(from, to, j)
  {
  }

  /** A move neither loses nor duplicates an element. */
  lemma MovePermutation<T>(s: seq<T>, from: nat, to: nat)
    requires from < |s| && to < |s|
    ensures multiset(Move(s, from, to)) == multiset(s)
  {
    var r := RemoveAt(s, from);
    assert s == s[..from] + [s[from]] + s[from + 1..];
    assert multiset(s) == multiset(r) + multiset{s[from]};
    assert r == r[..to] + r[to..];
    assert Move(s, from, to) == r[..to] + [s[from]] + r[to..];
  }

  /**
   * Taking the dragged element out of the result gives the input with that
   * element taken out: every other element keeps its relative order.
   */
  lemma MoveKeepsOthersInOrder<T>(s: seq<T>, from: nat, to: nat)
    requires from < |s| && to < |s|
    ensures RemoveAt(Move(s, from, to), to) == RemoveAt(s, from)
  {
    var m := Move(s, from, to);
    var r := RemoveAt(s, from);
    forall k | 0 <= k < |r|
      ensures RemoveAt(m, to)[k] == r[k]
    {
      if k < to {
        assert RemoveAt(m, to)[k] == m[k];
      } else {
        assert RemoveAt(m, to)[k] == m[k + 1];
      }
    }
  }

  /** Dropping an element onto its own position leaves the sequence unchanged. */
  lemma MoveSelf<T>(s: seq<T>, i: nat)
    requires i < |s|
    ensures Move(s, i, i) == s
  {
    forall k | 0 <= k < |s|
      ensures Move(s, i, i)[k] == s[k]
    {
      MoveAt(s, i, i, k);
    }
  }

  /** Dragging the element back from `to` to `from` restores the original. */
  lemma MoveUndo<T>(s: seq<T>, from: nat, to: nat)
    requires from < |s| && to < |s|
    ensures Move(Move(s, from, to), to, from) == s
  {
    var m := Move(s, from, to);
    MoveKeepsOthersInOrder(s, from, to);
    assert Move(m, to, from) == Move(s, from, from);
    MoveSelf(s, from);
  }

  /** Moving commutes with an elementwise map: each image travels with its element. */
  lemma MoveCommutesWithMap<T, U>(g: T -> U, s: seq<T>, from: nat, to: nat)
    requires from < |s| && to < |s|
    ensures Map(g, Move(s, from, to)) == Move(Map(g, s), from, to)
  {
    var gs := Map(g, s);
    forall k | 0 <= k < |s|
      ensures Map(g, Move(s, from, to))[k] == Move(gs, from, to)[k]
    {
      MoveAt(s, from, to, k);
      MoveAt(gs, from, to, k);
    }
  }

  /** A move keeps a repeat-free sequence repeat-free. */
  lemma MovePreservesDistinct<T>(s: seq<T>, from: nat, to: nat)
    requires from < |s| && to < |s| && Distinct(s)
    ensures Distinct(Move(s, from, to))
  {
    var m := Move(s, from, to);
    forall i, j | 0 <= i < j < |m|
      ensures m[i] != m[j]
    {
      MoveAt(s, from, to, i);
      MoveAt(s, from, to, j);
      MoveSourceInjective(from, to, i, j);
    }
  }
}
