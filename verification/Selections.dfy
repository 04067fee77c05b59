/**
  What it means to keep some members of a list, in order.
 */
module Selections {
  /** `positions` rise through the list, are all kept ones, miss none, and read `out`. */
  predicate Picks(xs: seq<string>, keep: seq<bool>, out: seq<string>, positions: seq<int>)
    requires |keep| == |xs|
  {
    && |positions| == |out|
    && (forall k :: 0 <= k < |out| ==> 0 <= positions[k] < |xs| && keep[positions[k]] && out[k] == xs[positions[k]])
    && (forall k, l :: 0 <= k < l < |out| ==> positions[k] < positions[l])
    && (forall j :: 0 <= j < |xs| && keep[j] ==> j in positions)
  }

  /** `out` is exactly what is kept of `xs`, in order. */
  ghost predicate Selects(xs: seq<string>, keep: seq<bool>, out: seq<string>)
    requires |keep| == |xs|
  {
    exists positions :: Picks(xs, keep, out, positions)
  }

  lemma SelectsNone()
    ensures Selects([], [], [])
  {
    assert Picks([], [], [], []);
  }

  lemma SelectsSnoc(xs: seq<string>, keep: seq<bool>, out: seq<string>, x: string, kept: bool)
    requires |keep| == |xs| && Selects(xs, keep, out)
    ensures Selects(xs + [x], keep + [kept], if kept then out + [x] else out)
  {
    var positions :| Picks(xs, keep, out, positions);
    if kept { PicksOneMore(xs, keep, out, positions, x); } else { PicksNoMore(xs, keep, out, positions, x); }
  }

  lemma PicksOneMore(xs: seq<string>, keep: seq<bool>, out: seq<string>, positions: seq<int>, x: string)
    requires |keep| == |xs| && Picks(xs, keep, out, positions)
    ensures Picks(xs + [x], keep + [true], out + [x], positions + [|xs|])
  {
    var ys, flags, more, ps := xs + [x], keep + [true], out + [x], positions + [|xs|];
    forall k | 0 <= k < |more| ensures 0 <= ps[k] < |ys| && flags[ps[k]] && more[k] == ys[ps[k]] {
      if k < |out| { assert keep[positions[k]] && out[k] == xs[positions[k]]; }
    }
    forall j | 0 <= j < |ys| && flags[j] ensures j in ps {
      if j < |xs| { assert keep[j] && j in positions; } else { assert ps[|positions|] == j; }
    }
  }

  lemma PicksNoMore(xs: seq<string>, keep: seq<bool>, out: seq<string>, positions: seq<int>, x: string)
    requires |keep| == |xs| && Picks(xs, keep, out, positions)
    ensures Picks(xs + [x], keep + [false], out, positions)
  {
    forall k | 0 <= k < |out| ensures (keep + [false])[positions[k]] && out[k] == (xs + [x])[positions[k]] {
      assert keep[positions[k]] && out[k] == xs[positions[k]];
    }
    forall j | 0 <= j < |xs + [x]| && (keep + [false])[j] ensures j in positions { assert keep[j]; }
  }

  /** A member is kept exactly when one of its places is. */
  lemma SelectsMember(xs: seq<string>, keep: seq<bool>, out: seq<string>, x: string)
    requires |keep| == |xs| && Selects(xs, keep, out)
    ensures x in out <==> exists j :: 0 <= j < |xs| && keep[j] && xs[j] == x
  {
    var positions :| Picks(xs, keep, out, positions);
    if x in out {
      var k :| 0 <= k < |out| && out[k] == x;
      assert keep[positions[k]] && xs[positions[k]] == x;
    }
    if j :| 0 <= j < |xs| && keep[j] && xs[j] == x {
      var k :| 0 <= k < |positions| && positions[k] == j;
      assert out[k] == x;
    }
  }

  lemma PickedTwo(xs: seq<string>, keep: seq<bool>, out: seq<string>, positions: seq<int>, i: int, j: int)
    requires |keep| == |xs| && Picks(xs, keep, out, positions) && 0 <= i < j < |xs| && keep[i] && keep[j]
    ensures |out| > 1
  {
    assert i in positions && j in positions;
    var k :| 0 <= k < |positions| && positions[k] == i;
    var l :| 0 <= l < |positions| && positions[l] == j;
  }

  lemma FirstTwoPicked(xs: seq<string>, keep: seq<bool>, out: seq<string>, positions: seq<int>)
    requires |keep| == |xs| && Picks(xs, keep, out, positions) && |out| > 1
    ensures 0 <= positions[0] < positions[1] < |xs| && keep[positions[0]] && keep[positions[1]]
  {
  }

  /** Two are kept exactly when two places are. */
  lemma SelectsTwo(xs: seq<string>, keep: seq<bool>, out: seq<string>)
    requires |keep| == |xs| && Selects(xs, keep, out)
    ensures |out| > 1 <==> exists i, j :: 0 <= i < j < |xs| && keep[i] && keep[j]
  {
    var positions :| Picks(xs, keep, out, positions);
    assert |positions| == |out|;
    hide Picks;
    if |out| > 1 { FirstTwoPicked(xs, keep, out, positions); }
    if i, j :| 0 <= i < j < |xs| && keep[i] && keep[j] { PickedTwo(xs, keep, out, positions, i, j); }
  }
}
