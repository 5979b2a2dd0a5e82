/**
 * The parts of JavaScript's Array behaviour the drop handler relies on:
 * `splice` with ECMAScript's clamping of the start index and delete count,
 * `filter`, and the fact that an array is a mutable object whose copy
 * (`[...a]`) is a fresh object.
 */
module Js {

  /**
   * ECMAScript's actual start of `splice(start, ...)` on an array of length
   * `len`: a negative start counts from the end, and the result is clamped
   * to `[0, len]`.
   */
  function RelativeStart(len: nat, start: int): (k: nat)
    ensures k <= len
    ensures 0 <= start <= len ==> k == start
    ensures start < 0 ==> k == if len + start < 0 then 0 else len + start
  {
    if start < 0 then (if len + start < 0 then 0 else len + start)
    else if start > len then len
    else start
  }

  /** The two results of a splice: the removed elements and the new contents. */
  datatype Spliced<T> = Spliced(removed: seq<T>, result: seq<T>)

  /** What `a.splice(start, deleteCount, ...items)` returns and leaves in `a`. */
  function SpliceOf<T>(a: seq<T>, start: int, deleteCount: int, items: seq<T>): (r: Spliced<T>)
    ensures var k := RelativeStart(|a|, start);
      && |r.removed| == (if deleteCount < 0 then 0 else if deleteCount > |a| - k then |a| - k else deleteCount)
      && |r.result| == |a| - |r.removed| + |items|
      && r.result[..k] == a[..k]
      && r.result[k..k + |items|] == items
      && r.result[..k] + r.removed + r.result[k + |items|..] == a
  {
    var k := RelativeStart(|a|, start);
    var n := if deleteCount < 0 then 0 else if deleteCount > |a| - k then |a| - k else deleteCount;
    assert a == a[..k] + a[k..k + n] + a[k + n..];
    Spliced(a[k..k + n], a[..k] + items + a[k + n..])
  }

  /** A JavaScript array object: a reference whose contents change in place. */
  class Array<T> {
    var elems: seq<T>

    /** An array literal, or the copy `[...other]` when given `other.elems`. */
    constructor (s: seq<T>)
      ensures elems == s
    {
      elems := s;
    }

    /** `this.splice(start, deleteCount, ...items)`. */
    method Splice(start: int, deleteCount: int, items: seq<T>) returns (removed: seq<T>)
      modifies this
      ensures removed == SpliceOf(old(elems), start, deleteCount, items).removed
      ensures elems == SpliceOf(old(elems), start, deleteCount, items).result
    {
      var r := SpliceOf(elems, start, deleteCount, items);
      removed := r.removed;
      elems := r.result;
    }
  }

  /** `s.filter(p)`: the elements satisfying `p`, in their original order. */
  function Filter<T>(s: seq<T>, p: T -> bool): (r: seq<T>)
    ensures |r| <= |s|
    ensures forall i :: 0 <= i < |r| ==> r[i] in s && p(r[i])
    ensures forall i :: 0 <= i < |s| && p(s[i]) ==> s[i] in r
  {
    if |s| == 0 then []
    else (if p(s[0]) then [s[0]] else []) + Filter(s[1..], p)
  }

  /** `s.filter(p)[0]` is the first element of `s` that satisfies `p`. */
  lemma {:induction false} FilterHead<T>(s: seq<T>, p: T -> bool, k: nat)
    requires k < |s| && p(s[k])
    requires forall j :: 0 <= j < k ==> !p(s[j])
    ensures |Filter(s, p)| > 0 && Filter(s, p)[0] == s[k]
  {
    if k > 0 {
      FilterHead(s[1..], p, k - 1);
    }
  }
}
