/** `Array.prototype.filter`: the elements satisfying a predicate, in their original order. */
module Filter {

  function Keep<T>(xs: seq<T>, p: T -> bool): (r: seq<T>)
    ensures |r| <= |xs|
    ensures forall x :: x in r ==> x in xs && p(x)
    ensures forall x :: x in xs && p(x) ==> x in r
  {
    if |xs| == 0 then []
    else
      var rest := Keep(xs[1..], p);
      assert forall x :: x in xs[1..] ==> x in xs;
      if p(xs[0]) then [xs[0]] + rest else rest
  }

  /**
   * `r` is the sub-sequence of `xs` at the strictly increasing positions `idx`.
   */
  ghost predicate SelectsAt<T>(r: seq<T>, xs: seq<T>, idx: seq<nat>) {
    && |idx| == |r|
    && (forall k :: 0 <= k < |idx| ==> idx[k] < |xs| && r[k] == xs[idx[k]])
    && (forall k, l :: 0 <= k < l < |idx| ==> idx[k] < idx[l])
  }

  /** Positions in `xs[1..]` seen as positions in `xs`. */
  function Shift(idx: seq<nat>): (r: seq<nat>)
    ensures |r| == |idx|
    ensures forall k :: 0 <= k < |r| ==> r[k] == idx[k] + 1
  {
    seq(|idx|, k requires 0 <= k < |idx| => idx[k] + 1)
  }

  lemma ShiftSelects<T>(r: seq<T>, xs: seq<T>, idx: seq<nat>)
    requires |xs| > 0
    requires SelectsAt(r, xs[1..], idx)
    ensures SelectsAt(r, xs, Shift(idx))
    ensures 0 !in Shift(idx)
    ensures forall i :: 1 <= i < |xs| ==> (i in Shift(idx) <==> i - 1 in idx)
  {
    var sh := Shift(idx);
    forall i | 1 <= i < |xs|
      ensures i in sh <==> i - 1 in idx
    {
      if i - 1 in idx {
        var k :| 0 <= k < |idx| && idx[k] == i - 1;
        assert sh[k] == i;
      }
    }
  }

  lemma PrependSelects<T>(r: seq<T>, xs: seq<T>, idx: seq<nat>)
    requires |xs| > 0
    requires SelectsAt(r, xs, idx)
    requires 0 !in idx
    ensures SelectsAt([xs[0]] + r, xs, [0] + idx)
  {
    forall k | 0 <= k < |idx|
      ensures 0 < idx[k]
    {
      assert idx[k] in idx;
    }
  }

  /**
   * `Keep` selects exactly the positions whose element satisfies `p`, in increasing
   * order: order and multiplicity are preserved and nothing else is kept.
   */
  lemma {:induction false} KeepSelectsInOrder<T>(xs: seq<T>, p: T -> bool) returns (idx: seq<nat>)
    ensures SelectsAt(Keep(xs, p), xs, idx)
    ensures forall i :: 0 <= i < |xs| ==> (p(xs[i]) <==> i in idx)
  {
    if |xs| == 0 {
      idx := [];
    } else {
      var tail := KeepSelectsInOrder(xs[1..], p);
      var rest := Keep(xs[1..], p);
      ShiftSelects(rest, xs, tail);
      var shifted := Shift(tail);
      assert forall i :: 1 <= i < |xs| ==> xs[i] == xs[1..][i - 1];
      if p(xs[0]) {
        PrependSelects(rest, xs, shifted);
        idx := [0] + shifted;
      } else {
        idx := shifted;
      }
    }
  }

  /** Filtering with a predicate every element satisfies keeps the whole sequence. */
  lemma {:induction false} KeepAll<T>(xs: seq<T>, p: T -> bool)
    requires forall i :: 0 <= i < |xs| ==> p(xs[i])
    ensures Keep(xs, p) == xs
  {
    if |xs| > 0 {
      KeepAll(xs[1..], p);
    }
  }
}
