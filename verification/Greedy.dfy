/**
  Filling segments greedily: an item goes to the segment at hand as long as the
  segment still fits, otherwise it opens a new one. The paginator and both line
  wrappers fill this way.
 */
module Greedy {

  /** The segments from the segment at hand on. */
  function Fill<T>(cur: seq<T>, items: seq<T>, fits: seq<T> -> bool): seq<seq<T>>
    decreases |items|
  {
    if items == [] then (if cur == [] then [] else [cur])
    else if cur == [] || fits(cur + [items[0]]) then Fill(cur + [items[0]], items[1..], fits)
    else [cur] + Fill([items[0]], items[1..], fits)
  }

  function Flatten<T>(segments: seq<seq<T>>): seq<T> {
    if segments == [] then [] else segments[0] + Flatten(segments[1..])
  }

  /** An order-preserving division of the items into nonempty segments. */
  ghost predicate Divides<T>(segments: seq<seq<T>>, items: seq<T>) {
    Flatten(segments) == items && forall k | 0 <= k < |segments| :: segments[k] != []
  }

  /** No segment has room for the item that comes after it. */
  ghost predicate Maximal<T>(segments: seq<seq<T>>, fits: seq<T> -> bool) {
    forall k, m | 0 <= k && m == k + 1 && m < |segments| :: segments[m] != [] && !fits(segments[k] + segments[m][..1])
  }

  /** What lies inside a segment that fits also fits. */
  ghost predicate Hereditary<T(!new)>(fits: seq<T> -> bool) {
    forall s: seq<T>, i, j | 0 <= i <= j <= |s| && fits(s) :: fits(s[i..j])
  }

  /** Nothing is lost, no segment overflows unless one item alone does, and no segment could take more. */
  lemma {:induction false} FillIsGreedy<T>(cur: seq<T>, items: seq<T>, fits: seq<T> -> bool)
    requires |cur| <= 1 || fits(cur)
    ensures var segments := Fill(cur, items, fits);
            && Divides(segments, cur + items) && Maximal(segments, fits)
            && (forall k | 0 <= k < |segments| :: |segments[k]| == 1 || fits(segments[k]))
            && (cur != [] ==> segments != [] && cur <= segments[0])
    decreases |items|
  {
    if items == [] {
      assert cur + items == cur;
      assert cur != [] ==> [cur][1..] == [];
    } else {
      var rest := items[1..];
      assert items == [items[0]] + rest;
      if cur == [] || fits(cur + [items[0]]) {
        FillIsGreedy(cur + [items[0]], rest, fits);
        assert cur + [items[0]] + rest == cur + items;
      } else {
        FillIsGreedy([items[0]], rest, fits);
        var more := Fill([items[0]], rest, fits);
        var segments := [cur] + more;
        assert segments[1..] == more;
        assert more[0][..1] == [items[0]];
        forall k, m | 0 <= k && m == k + 1 && m < |segments|
          ensures segments[m] != [] && !fits(segments[k] + segments[m][..1])
        {
          if k > 0 { assert segments[k] == more[k - 1] && segments[m] == more[m - 1] && m - 1 == (k - 1) + 1; }
        }
      }
    }
  }

  /** A maximal division of a suffix needs no more segments than any fitting division of the whole. */
  lemma {:induction false} FewestSegments<T(!new)>(
      greedy: seq<seq<T>>, x: seq<T>, other: seq<seq<T>>, z: seq<T>, fits: seq<T> -> bool)
    requires Hereditary(fits) && Divides(greedy, x) && Maximal(greedy, fits)
    requires Divides(other, z + x) && forall k | 0 <= k < |other| :: fits(other[k])
    ensures |greedy| <= |other|
    decreases |other|
  {
    if greedy != [] {
      var y := z + x;
      var g, s := greedy[0], other[0];
      assert y == s + Flatten(other[1..]) && x == g + Flatten(greedy[1..]);
      TailIsMaximal(greedy, fits);
      if |s| > |z| + |g| {
        LongerContains(greedy, x, s, z, y);
      }
      assert y[|s|..] == y[|s|..|z| + |g|] + x[|g|..] && x[|g|..] == Flatten(greedy[1..]);
      FewestSegments(greedy[1..], x[|g|..], other[1..], y[|s|..|z| + |g|], fits);
    }
  }

  /** A segment that reaches beyond the first greedy one contains it and the item after it. */
  lemma LongerContains<T>(greedy: seq<seq<T>>, x: seq<T>, s: seq<T>, z: seq<T>, y: seq<T>)
    requires Divides(greedy, x) && greedy != [] && y == z + x && s <= y && |s| > |z| + |greedy[0]|
    ensures |greedy| > 1 && greedy[1] != []
    ensures s[|z|..|z| + |greedy[0]| + 1] == greedy[0] + greedy[1][..1]
  {
    var g, more := greedy[0], greedy[1..];
    assert x == g + Flatten(more) && Flatten(more) != [];
    assert Flatten(more) == greedy[1] + Flatten(more[1..]);
    assert y[|z|..|z| + |g| + 1] == x[..|g| + 1] == g + greedy[1][..1];
  }

  lemma TailIsMaximal<T>(segments: seq<seq<T>>, fits: seq<T> -> bool)
    requires segments != [] && Maximal(segments, fits)
    ensures Maximal(segments[1..], fits)
  {
    var tail := segments[1..];
    forall k, m | 0 <= k && m == k + 1 && m < |tail|
      ensures tail[m] != [] && !fits(tail[k] + tail[m][..1])
    {
      assert tail[k] == segments[k + 1] && tail[m] == segments[m + 1] && m + 1 == (k + 1) + 1;
    }
  }

  /** Greedy filling is optimal: no order-preserving division into fitting segments is shorter. */
  lemma GreedyIsOptimal<T(!new)>(items: seq<T>, other: seq<seq<T>>, fits: seq<T> -> bool)
    requires Hereditary(fits)
    requires Divides(other, items) && forall k | 0 <= k < |other| :: fits(other[k])
    ensures |Fill([], items, fits)| <= |other|
  {
    FillIsGreedy([], items, fits);
    assert [] + items == items;
    FewestSegments(Fill([], items, fits), items, other, [], fits);
  }

  lemma {:induction false} PartOfFlatten<T>(segments: seq<seq<T>>, k: nat)
    requires k < |segments|
    ensures forall x | x in segments[k] :: x in Flatten(segments)
  {
    if k > 0 { PartOfFlatten(segments[1..], k - 1); }
  }
}
