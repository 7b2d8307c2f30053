/**
 * The neighbourhood relation behind clustering.
 *
 * The source finds neighbours with an octree box query over normalised
 * (x, y, t) points: a box of half-width 1 around a point whose coordinates
 * were divided by the half windows.  Exactly, that is an axis-aligned box of
 * half-width clusterSizeXY in x and y and clusterSizeT / 1.5625 ticks in t,
 * edges included.  Clusters are the connected components of this relation.
 */
module Connectivity {
  import opened Tpx3

  /** Half windows of the box query: pixels in x and y, clock ticks in t. */
  datatype Windows = Windows(xy: real, t: real)

  /** clusterSizeXY pixels and clusterSizeT nanoseconds, at 1.5625 ns per tick. */
  function HalfWindows(s: ImportSettings): (w: Windows)
    ensures w.xy == s.clusterSizeXY && w.t * 1.5625 == s.clusterSizeT
  {
    Windows(s.clusterSizeXY, s.clusterSizeT / 1.5625)
  }

  function Abs(z: int): nat {
    if z < 0 then -z else z
  }

  /** Hit j lies in the box around hit i. */
  predicate Adjacent(d: PixelData, w: Windows, i: int, j: int) {
    d.Aligned() && 0 <= i < |d.addr| && 0 <= j < |d.addr|
    && Abs(d.addr[i].x - d.addr[j].x) as real <= w.xy
    && Abs(d.addr[i].y - d.addr[j].y) as real <= w.xy
    && Abs(d.toa[i] - d.toa[j]) as real <= w.t
  }

  /** The box query: every hit in the box around hit i. */
  function Neighbours(d: PixelData, w: Windows, i: nat): (r: set<nat>)
    requires d.Aligned()
    ensures forall j: int :: j in r <==> Adjacent(d, w, i, j)
  {
    set j | j in Indices(|d.addr|) && Adjacent(d, w, i, j)
  }

  lemma AdjacentSymmetric(d: PixelData, w: Windows, i: int, j: int)
    ensures Adjacent(d, w, i, j) <==> Adjacent(d, w, j, i)
  {
  }

  /** A non-empty chain of hits, each in the box of the previous one. */
  ghost predicate IsPath(d: PixelData, w: Windows, p: seq<int>) {
    |p| >= 1 && d.Aligned()
    && (forall k :: 0 <= k < |p| ==> 0 <= p[k] < |d.addr|)
    && (forall k :: 0 <= k < |p| - 1 ==> Adjacent(d, w, p[k], p[k + 1]))
  }

  ghost predicate Reachable(d: PixelData, w: Windows, i: int, j: int) {
    exists p :: IsPath(d, w, p) && p[0] == i && p[|p| - 1] == j
  }

  /** The connected component of hit i. */
  ghost function Component(d: PixelData, w: Windows, i: int): (c: set<nat>)
    requires d.Aligned()
    ensures forall j: int :: j in c <==> 0 <= j < |d.addr| && Reachable(d, w, i, j)
  {
    set j | j in Indices(|d.addr|) && Reachable(d, w, i, j)
  }

  /** No box reaches out of S. */
  ghost predicate Closed(d: PixelData, w: Windows, s: set<nat>) {
    forall i, j :: i in s && Adjacent(d, w, i, j) ==> j in s
  }

  lemma ReachableInRange(d: PixelData, w: Windows, i: int, j: int)
    requires Reachable(d, w, i, j)
    ensures d.Aligned() && 0 <= i < |d.addr| && 0 <= j < |d.addr|
  {
    var p :| IsPath(d, w, p) && p[0] == i && p[|p| - 1] == j;
    assert 0 <= p[0] < |d.addr| && 0 <= p[|p| - 1] < |d.addr|;
  }

  lemma ReachableRefl(d: PixelData, w: Windows, i: int)
    requires d.Aligned() && 0 <= i < |d.addr|
    ensures Reachable(d, w, i, i)
  {
    assert IsPath(d, w, [i]);
  }

  lemma ReachableStep(d: PixelData, w: Windows, i: int, j: int, k: int)
    requires Reachable(d, w, i, j) && Adjacent(d, w, j, k)
    ensures Reachable(d, w, i, k)
  {
    var p :| IsPath(d, w, p) && p[0] == i && p[|p| - 1] == j;
    var q := p + [k];
    assert forall m :: 0 <= m < |p| ==> q[m] == p[m];
    assert IsPath(d, w, q);
  }

  function Reverse(p: seq<int>): (r: seq<int>)
    ensures |r| == |p| && forall k :: 0 <= k < |p| ==> r[k] == p[|p| - 1 - k]
  {
    if p == [] then [] else Reverse(p[1..]) + [p[0]]
  }

  lemma ReachableSymmetric(d: PixelData, w: Windows, i: int, j: int)
    requires Reachable(d, w, i, j)
    ensures Reachable(d, w, j, i)
  {
    var p :| IsPath(d, w, p) && p[0] == i && p[|p| - 1] == j;
    var r := Reverse(p);
    forall k | 0 <= k < |r| - 1 ensures Adjacent(d, w, r[k], r[k + 1]) {
      assert Adjacent(d, w, p[|p| - 2 - k], p[|p| - 1 - k]);
    }
    assert IsPath(d, w, r);
  }

  lemma ReachableTransitive(d: PixelData, w: Windows, i: int, j: int, k: int)
    requires Reachable(d, w, i, j) && Reachable(d, w, j, k)
    ensures Reachable(d, w, i, k)
  {
    var p :| IsPath(d, w, p) && p[0] == i && p[|p| - 1] == j;
    var q :| IsPath(d, w, q) && q[0] == j && q[|q| - 1] == k;
    var r := p + q[1..];
    forall m | 0 <= m < |r| - 1 ensures Adjacent(d, w, r[m], r[m + 1]) {
      if m < |p| - 1 {
        assert r[m] == p[m] && r[m + 1] == p[m + 1];
      } else {
        assert r[m] == q[m - |p| + 1] && r[m + 1] == q[m - |p| + 2];
      }
    }
    assert IsPath(d, w, r);
  }

  /** A closed set holding the start of a path holds the whole path. */
  lemma {:induction false} ClosedHoldsPath(d: PixelData, w: Windows, s: set<nat>, p: seq<int>, m: nat)
    requires Closed(d, w, s) && IsPath(d, w, p) && p[0] in s && m < |p|
    ensures p[m] in s
  {
    if m > 0 {
      ClosedHoldsPath(d, w, s, p, m - 1);
      assert Adjacent(d, w, p[m - 1], p[m]);
    }
  }

  lemma ClosedHoldsReachable(d: PixelData, w: Windows, s: set<nat>, i: int, j: int)
    requires Closed(d, w, s) && i in s && Reachable(d, w, i, j)
    ensures j in s
  {
    var p :| IsPath(d, w, p) && p[0] == i && p[|p| - 1] == j;
    ClosedHoldsPath(d, w, s, p, |p| - 1);
  }

  /** Hits of one component have the same component. */
  lemma SameComponent(d: PixelData, w: Windows, i: int, j: int)
    requires Reachable(d, w, i, j)
    ensures Component(d, w, i) == Component(d, w, j)
  {
    ReachableInRange(d, w, i, j);
    forall k | 0 <= k < |d.addr|
      ensures Reachable(d, w, i, k) <==> Reachable(d, w, j, k)
    {
      ReachableSymmetric(d, w, i, j);
      if Reachable(d, w, i, k) {
        ReachableTransitive(d, w, j, i, k);
      }
      if Reachable(d, w, j, k) {
        ReachableTransitive(d, w, i, j, k);
      }
    }
  }

  /** The component is the least closed set holding its hit. */
  lemma ComponentIsLeastClosed(d: PixelData, w: Windows, i: int, s: set<nat>)
    requires d.Aligned() && 0 <= i < |d.addr|
    ensures i in Component(d, w, i) && Closed(d, w, Component(d, w, i))
    ensures Closed(d, w, s) && i in s ==> Component(d, w, i) <= s
  {
    ReachableRefl(d, w, i);
    forall a, b | a in Component(d, w, i) && Adjacent(d, w, a, b)
      ensures b in Component(d, w, i)
    {
      ReachableStep(d, w, i, a, b);
    }
    if Closed(d, w, s) && i in s {
      forall j | j in Component(d, w, i) ensures j in s {
        ClosedHoldsReachable(d, w, s, i, j);
      }
    }
  }

  /**
   * A labelling that agrees across every box of a labelled hit agrees along
   * every path from a labelled hit.
   */
  lemma {:induction false} LabelConstantOnPath(d: PixelData, w: Windows, ids: seq<int>, p: seq<int>, m: nat)
    requires |ids| == |d.addr| && IsPath(d, w, p) && m < |p|
    requires forall a, b :: Adjacent(d, w, a, b) && ids[a] >= 0 ==> ids[b] == ids[a]
    requires ids[p[0]] >= 0
    ensures ids[p[m]] == ids[p[0]]
  {
    if m > 0 {
      LabelConstantOnPath(d, w, ids, p, m - 1);
      assert Adjacent(d, w, p[m - 1], p[m]);
    }
  }

  lemma LabelConstantOnComponent(d: PixelData, w: Windows, ids: seq<int>, i: int, j: int)
    requires |ids| == |d.addr| && Reachable(d, w, i, j)
    requires forall a, b :: Adjacent(d, w, a, b) && ids[a] >= 0 ==> ids[b] == ids[a]
    requires ids[i] >= 0
    ensures ids[j] == ids[i]
  {
    var p :| IsPath(d, w, p) && p[0] == i && p[|p| - 1] == j;
    LabelConstantOnPath(d, w, ids, p, |p| - 1);
  }
}
