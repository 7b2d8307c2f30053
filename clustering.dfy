/**
 * cluster: give every hit a cluster id.
 *
 * Hits are visited in index order.  An unmarked hit starts a breadth-first
 * expansion: each newly found hit that is still unmarked is box-queried and
 * the results are added to the cluster set.  A cluster set smaller than the
 * minimum size is marked 0 (rejected); otherwise its unmarked hits get the
 * next cluster id, counting from 1.
 *
 * The comment in the source that clusters do not depend on the starting hit,
 * so that a hit still unmarked when visited has a wholly unmarked cluster, is
 * the invariant that labels agree across every box of a marked hit.  It makes
 * each expansion exactly the connected component of its first hit, and the
 * "nonempty" guard always true.
 */
module Clustering {
  import opened Tpx3
  import opened Connectivity

  /**
   * cluster_indices.size() < MIN_CLUSTER_SIZE compares a size_t with an int,
   * so a negative minimum is read as a huge unsigned value.
   */
  predicate Rejected(size: nat, minSize: int) {
    size < (if minSize < 0 then minSize + 0x1_0000_0000_0000_0000 else minSize)
  }

  /** Some hit before index j has id k. */
  predicate OccursBefore(ids: seq<int>, j: nat, k: int)
    requires j <= |ids|
  {
    exists i :: 0 <= i < j && ids[i] == k
  }

  /** Labels agree across every box of a marked hit (id 0 or more). */
  ghost predicate MarksRespectBoxes(d: PixelData, w: Windows, ids: seq<int>)
    requires |ids| == |d.addr|
  {
    forall a, b :: Adjacent(d, w, a, b) && ids[a] >= 0 ==> ids[b] == ids[a]
  }

  /**
   * The expansion loop: grow the cluster set from hit e until a pass finds
   * nothing new.  The box query is the Neighbours set.
   */
  method ExpandCluster(d: PixelData, w: Windows, ids: seq<int>, e: nat) returns (s: set<nat>)
    requires d.Aligned() && |ids| == |d.addr| && e < |d.addr| && ids[e] < 0
    requires MarksRespectBoxes(d, w, ids)
    ensures s == Component(d, w, e)
    ensures forall j :: j in s ==> ids[j] < 0
  {
    var n := |d.addr|;
    s := {e};
    var found := {e};
    ReachableRefl(d, w, e);
    while found != {}
      invariant e in s && found <= s && s <= Indices(n)
      invariant forall j :: j in s ==> ids[j] < 0 && Reachable(d, w, e, j)
      invariant forall j, k :: j in s && j !in found && Adjacent(d, w, j, k) ==> k in s
      decreases Indices(n) - s, if found == {} then 0 else 1
    {
      var prev := found;
      found := {};
      ghost var s0 := s;
      while prev != {}
        invariant prev <= s0 && s0 <= s && s <= Indices(n)
        invariant found == s - s0
        invariant e in s
        invariant forall j :: j in s ==> ids[j] < 0 && Reachable(d, w, e, j)
        invariant forall j, k :: j in s && j !in found && j !in prev && Adjacent(d, w, j, k) ==> k in s
        decreases prev
      {
        var jx :| jx in prev;
        prev := prev - {jx};
        if ids[jx] < 0 {
          var box := Neighbours(d, w, jx);
          forall k | k in box ensures ids[k] < 0 && Reachable(d, w, e, k) {
            AdjacentSymmetric(d, w, jx, k);
            ReachableStep(d, w, e, jx, k);
          }
          found := found + (box - s);
          s := s + box;
        }
      }
    }
    ComponentIsLeastClosed(d, w, e, s);
    forall j | j in Component(d, w, e) ensures j in s { }
    forall j | j in s ensures j in Component(d, w, e) { }
  }

  /** Set the id of every hit in s to v. */
  method MarkAll(ids: seq<int>, s: set<nat>, v: int) returns (ids': seq<int>)
    requires forall j :: j in s ==> j < |ids|
    ensures |ids'| == |ids|
    ensures forall j :: 0 <= j < |ids| ==> ids'[j] == if j in s then v else ids[j]
  {
    ids' := ids;
    var rest := s;
    while rest != {}
      invariant rest <= s && |ids'| == |ids|
      invariant forall j :: 0 <= j < |ids| ==> ids'[j] == if j in s - rest then v else ids[j]
      decreases rest
    {
      var jx :| jx in rest;
      ids' := ids'[jx := v];
      rest := rest - {jx};
    }
  }

  /**
   * Give each unmarked (-1) hit of s the id v; report whether any hit was
   * unmarked (the source's "nonempty").
   */
  method MarkUnmarked(ids: seq<int>, s: set<nat>, v: int) returns (ids': seq<int>, nonempty: bool)
    requires forall j :: j in s ==> j < |ids|
    ensures |ids'| == |ids|
    ensures forall j :: 0 <= j < |ids| ==> ids'[j] == if j in s && ids[j] == -1 then v else ids[j]
    ensures nonempty <==> exists j :: j in s && ids[j] == -1
  {
    ids' := ids;
    nonempty := false;
    var rest := s;
    while rest != {}
      invariant rest <= s && |ids'| == |ids|
      invariant forall j :: 0 <= j < |ids| ==> ids'[j] == if j in s - rest && ids[j] == -1 then v else ids[j]
      invariant nonempty <==> exists j :: j in s - rest && ids[j] == -1
      decreases rest
    {
      var jx :| jx in rest;
      if ids'[jx] == -1 {
        ids' := ids'[jx := v];
        nonempty := true;
      }
      rest := rest - {jx};
    }
  }

  /** Two hits with the same positive id are connected. */
  ghost predicate SameIdConnected(d: PixelData, w: Windows, ids: seq<int>) {
    forall i, j :: 0 <= i < |ids| && 0 <= j < |ids| && ids[i] > 0 && ids[i] == ids[j] ==> Reachable(d, w, i, j)
  }

  /** A marked hit has id 0 exactly when its component is below the minimum size. */
  ghost predicate RejectedExactly(d: PixelData, w: Windows, minSize: int, ids: seq<int>)
    requires d.Aligned()
  {
    forall i :: 0 <= i < |ids| && ids[i] >= 0 ==> (ids[i] == 0 <==> Rejected(|Component(d, w, i)|, minSize))
  }

  /**
   * leaders[k] is the first hit given id k + 1: leaders are increasing, all
   * before the visiting position, and no hit of a cluster precedes its leader.
   */
  ghost predicate LeadersValid(ids: seq<int>, earliest: nat, current: int, leaders: seq<nat>) {
    |leaders| == current - 1
    && (forall k :: 0 <= k < |leaders| ==> leaders[k] < earliest && leaders[k] < |ids| && ids[leaders[k]] == k + 1)
    && (forall i :: 0 <= i < |ids| && ids[i] > 0 ==> ids[i] - 1 < |leaders| && leaders[ids[i] - 1] <= i)
    && (forall a, b :: 0 <= a < b < |leaders| ==> leaders[a] < leaders[b])
  }

  /** The labelling loop's invariant after the hits before earliest have been visited. */
  ghost predicate LabelState(d: PixelData, w: Windows, minSize: int, ids: seq<int>, earliest: nat, current: int, leaders: seq<nat>) {
    d.Aligned() && earliest <= |d.addr| && |ids| == |d.addr| && current >= 1
    && (forall i :: 0 <= i < |ids| ==> -1 <= ids[i] < current)
    && (forall i :: 0 <= i < earliest ==> ids[i] >= 0)
    && MarksRespectBoxes(d, w, ids)
    && SameIdConnected(d, w, ids)
    && RejectedExactly(d, w, minSize, ids)
    && LeadersValid(ids, earliest, current, leaders)
  }

  /** What an expansion from the unmarked hit e hands to the marking step. */
  ghost predicate ExpandedFrom(d: PixelData, w: Windows, ids: seq<int>, earliest: nat, s: set<nat>)
    requires d.Aligned() && earliest < |d.addr|
  {
    s == Component(d, w, earliest) && Closed(d, w, s) && earliest in s
    && (forall j :: j in s ==> earliest <= j < |d.addr| && j < |ids| && ids[j] == -1)
    && (forall j :: j in s ==> Component(d, w, j) == s)
  }

  lemma ExpansionFacts(d: PixelData, w: Windows, minSize: int, ids: seq<int>, earliest: nat, current: int, leaders: seq<nat>, s: set<nat>)
    requires LabelState(d, w, minSize, ids, earliest, current, leaders) && earliest < |d.addr|
    requires s == Component(d, w, earliest) && forall j :: j in s ==> ids[j] < 0
    ensures ExpandedFrom(d, w, ids, earliest, s)
  {
    ComponentIsLeastClosed(d, w, earliest, s);
    forall j | j in s ensures Component(d, w, j) == s && earliest <= j {
      SameComponent(d, w, earliest, j);
    }
  }

  /** Rejecting a small component keeps the invariant and moves on. */
  lemma RejectStep(d: PixelData, w: Windows, minSize: int, ids: seq<int>, earliest: nat, current: int, leaders: seq<nat>, s: set<nat>, after: seq<int>)
    requires LabelState(d, w, minSize, ids, earliest, current, leaders) && earliest < |d.addr|
    requires ExpandedFrom(d, w, ids, earliest, s) && Rejected(|s|, minSize)
    requires |after| == |ids| && forall j :: 0 <= j < |ids| ==> after[j] == if j in s then 0 else ids[j]
    ensures LabelState(d, w, minSize, after, earliest + 1, current, leaders)
  {
    MarkPreservesBoxes(d, w, ids, after, s, 0);
    RejectKeepsConnected(d, w, ids, after, s);
    RejectKeepsRejected(d, w, minSize, ids, earliest, s, after);
    RejectKeepsLeaders(ids, earliest, current, leaders, s, after);
  }

  lemma RejectKeepsConnected(d: PixelData, w: Windows, ids: seq<int>, after: seq<int>, s: set<nat>)
    requires SameIdConnected(d, w, ids)
    requires |after| == |ids| && forall j :: 0 <= j < |ids| ==> after[j] == if j in s then 0 else ids[j]
    ensures SameIdConnected(d, w, after)
  {
  }

  lemma RejectKeepsRejected(d: PixelData, w: Windows, minSize: int, ids: seq<int>, earliest: nat, s: set<nat>, after: seq<int>)
    requires d.Aligned() && earliest < |d.addr| && RejectedExactly(d, w, minSize, ids)
    requires ExpandedFrom(d, w, ids, earliest, s) && Rejected(|s|, minSize)
    requires |after| == |ids| && forall j :: 0 <= j < |ids| ==> after[j] == if j in s then 0 else ids[j]
    ensures RejectedExactly(d, w, minSize, after)
  {
  }

  lemma RejectKeepsLeaders(ids: seq<int>, earliest: nat, current: int, leaders: seq<nat>, s: set<nat>, after: seq<int>)
    requires LeadersValid(ids, earliest, current, leaders)
    requires |after| == |ids| && forall j :: 0 <= j < |ids| ==> after[j] == if j in s then 0 else ids[j]
    requires forall j :: j in s ==> j < |ids| && ids[j] == -1
    ensures LeadersValid(after, earliest + 1, current, leaders)
  {
  }

  /** Giving a component the next id keeps the invariant and moves on. */
  lemma AcceptStep(d: PixelData, w: Windows, minSize: int, ids: seq<int>, earliest: nat, current: int, leaders: seq<nat>, s: set<nat>, after: seq<int>)
    requires LabelState(d, w, minSize, ids, earliest, current, leaders) && earliest < |d.addr|
    requires ExpandedFrom(d, w, ids, earliest, s) && !Rejected(|s|, minSize)
    requires |after| == |ids| && forall j :: 0 <= j < |ids| ==> after[j] == if j in s then current else ids[j]
    ensures LabelState(d, w, minSize, after, earliest + 1, current + 1, leaders + [earliest])
  {
    MarkPreservesBoxes(d, w, ids, after, s, current);
    AcceptKeepsConnected(d, w, ids, earliest, current, s, after);
    AcceptKeepsRejected(d, w, minSize, ids, earliest, current, s, after);
    AcceptKeepsLeaders(ids, earliest, current, leaders, s, after);
  }

  lemma AcceptKeepsConnected(d: PixelData, w: Windows, ids: seq<int>, earliest: nat, current: int, s: set<nat>, after: seq<int>)
    requires d.Aligned() && earliest < |d.addr| && SameIdConnected(d, w, ids) && ExpandedFrom(d, w, ids, earliest, s)
    requires forall i :: 0 <= i < |ids| ==> ids[i] < current
    requires |after| == |ids| && forall j :: 0 <= j < |ids| ==> after[j] == if j in s then current else ids[j]
    ensures SameIdConnected(d, w, after)
  {
    forall i, j | 0 <= i < |after| && 0 <= j < |after| && after[i] > 0 && after[i] == after[j]
      ensures Reachable(d, w, i, j)
    {
      if i in s {
        assert j in s;
        ReachableSymmetric(d, w, earliest, i);
        ReachableTransitive(d, w, i, earliest, j);
      }
    }
  }

  lemma AcceptKeepsRejected(d: PixelData, w: Windows, minSize: int, ids: seq<int>, earliest: nat, current: int, s: set<nat>, after: seq<int>)
    requires d.Aligned() && earliest < |d.addr| && RejectedExactly(d, w, minSize, ids) && current >= 1
    requires ExpandedFrom(d, w, ids, earliest, s) && !Rejected(|s|, minSize)
    requires |after| == |ids| && forall j :: 0 <= j < |ids| ==> after[j] == if j in s then current else ids[j]
    ensures RejectedExactly(d, w, minSize, after)
  {
  }

  lemma AcceptKeepsLeaders(ids: seq<int>, earliest: nat, current: int, leaders: seq<nat>, s: set<nat>, after: seq<int>)
    requires LeadersValid(ids, earliest, current, leaders) && earliest < |ids|
    requires forall i :: 0 <= i < earliest ==> ids[i] >= 0
    requires |after| == |ids| && forall j :: 0 <= j < |ids| ==> after[j] == if j in s then current else ids[j]
    requires earliest in s && forall j :: j in s ==> earliest <= j < |ids| && ids[j] == -1
    ensures LeadersValid(after, earliest + 1, current + 1, leaders + [earliest])
  {
    var grown := leaders + [earliest];
    AcceptLeadersMarked(ids, earliest, current, leaders, s, after);
    AcceptLeadersFirst(ids, earliest, current, leaders, s, after);
    assert forall a, b :: 0 <= a < b < |grown| ==> grown[a] < grown[b];
  }

  /** Each leader, the new one included, carries its own id after the marking. */
  lemma AcceptLeadersMarked(ids: seq<int>, earliest: nat, current: int, leaders: seq<nat>, s: set<nat>, after: seq<int>)
    requires |leaders| == current - 1
    requires forall k :: 0 <= k < |leaders| ==> leaders[k] < earliest && leaders[k] < |ids| && ids[leaders[k]] == k + 1
    requires |after| == |ids| && forall j :: 0 <= j < |ids| ==> after[j] == if j in s then current else ids[j]
    requires earliest in s && earliest < |ids| && forall j :: j in s ==> earliest <= j
    ensures forall k :: 0 <= k < |leaders + [earliest]| ==>
      (leaders + [earliest])[k] < earliest + 1 && (leaders + [earliest])[k] < |after| && after[(leaders + [earliest])[k]] == k + 1
  {
    var grown := leaders + [earliest];
    forall k | 0 <= k < |grown|
      ensures grown[k] < earliest + 1 && grown[k] < |after| && after[grown[k]] == k + 1
    {
      if k < |leaders| {
        assert grown[k] == leaders[k] && leaders[k] !in s;
      }
    }
  }

  /** No hit of a cluster, the new one included, comes before its leader. */
  lemma AcceptLeadersFirst(ids: seq<int>, earliest: nat, current: int, leaders: seq<nat>, s: set<nat>, after: seq<int>)
    requires |leaders| == current - 1
    requires forall i :: 0 <= i < |ids| && ids[i] > 0 ==> ids[i] - 1 < |leaders| && leaders[ids[i] - 1] <= i
    requires |after| == |ids| && forall j :: 0 <= j < |ids| ==> after[j] == if j in s then current else ids[j]
    requires forall j :: j in s ==> earliest <= j
    ensures forall i :: 0 <= i < |after| && after[i] > 0 ==>
      after[i] - 1 < |leaders + [earliest]| && (leaders + [earliest])[after[i] - 1] <= i
  {
    var grown := leaders + [earliest];
    forall i | 0 <= i < |after| && after[i] > 0
      ensures after[i] - 1 < |grown| && grown[after[i] - 1] <= i
    {
      if i !in s {
        assert grown[ids[i] - 1] == leaders[ids[i] - 1];
      }
    }
  }

  /** At the end every hit is marked, and the invariant gives the cluster contract. */
  lemma FinalState(d: PixelData, w: Windows, minSize: int, ids: seq<int>, current: int, leaders: seq<nat>)
    requires LabelState(d, w, minSize, ids, |d.addr|, current, leaders)
    ensures forall i :: 0 <= i < |ids| ==> 0 <= ids[i] <= current - 1
    ensures forall i, j :: Reachable(d, w, i, j) ==> ids[i] == ids[j]
    ensures forall k :: 1 <= k <= current - 1 ==> OccursBefore(ids, |ids|, k)
    ensures forall j, k :: 0 <= j < |ids| && 0 < k < ids[j] ==> OccursBefore(ids, j, k)
  {
    forall i, j | Reachable(d, w, i, j) ensures ids[i] == ids[j] {
      ReachableInRange(d, w, i, j);
      LabelConstantOnComponent(d, w, ids, i, j);
    }
    forall k | 1 <= k <= current - 1 ensures OccursBefore(ids, |ids|, k) {
      assert ids[leaders[k - 1]] == k;
    }
    forall j, k | 0 <= j < |ids| && 0 < k < ids[j] ensures OccursBefore(ids, j, k) {
      assert ids[leaders[k - 1]] == k && leaders[k - 1] < leaders[ids[j] - 1] <= j;
    }
  }

  /**
   * One turn of the outer loop: an unmarked hit is expanded into its
   * component, which is rejected or given the next id.
   */
  method VisitHit(d: PixelData, w: Windows, minSize: int, ids: seq<int>, earliest: nat, current: int, ghost leaders: seq<nat>)
    returns (ids': seq<int>, current': int, ghost leaders': seq<nat>)
    requires LabelState(d, w, minSize, ids, earliest, current, leaders) && earliest < |d.addr|
    ensures LabelState(d, w, minSize, ids', earliest + 1, current', leaders')
  {
    ids', current', leaders' := ids, current, leaders;
    if ids[earliest] < 0 {
      var s := ExpandCluster(d, w, ids, earliest);
      ExpansionFacts(d, w, minSize, ids, earliest, current, leaders, s);
      ids', current', leaders' := MarkComponent(d, w, minSize, ids, earliest, current, leaders, s);
    }
  }

  /** Marking an expanded component: 0 when it is too small, otherwise the next cluster id. */
  method MarkComponent(d: PixelData, w: Windows, minSize: int, ids: seq<int>, earliest: nat, current: int, ghost leaders: seq<nat>, s: set<nat>)
    returns (ids': seq<int>, current': int, ghost leaders': seq<nat>)
    requires LabelState(d, w, minSize, ids, earliest, current, leaders) && earliest < |d.addr|
    requires ExpandedFrom(d, w, ids, earliest, s)
    ensures LabelState(d, w, minSize, ids', earliest + 1, current', leaders')
  {
    current', leaders' := current, leaders;
    if Rejected(|s|, minSize) {
      ids' := MarkAll(ids, s, 0);
      RejectStep(d, w, minSize, ids, earliest, current, leaders, s, ids');
    } else {
      var nonempty;
      ids', nonempty := MarkUnmarked(ids, s, current);
      AcceptStep(d, w, minSize, ids, earliest, current, leaders, s, ids');
      // the whole component was unmarked, so the guard below always holds
      assert earliest in s && ids[earliest] == -1;
      assert nonempty;
      if nonempty {
        leaders' := leaders + [earliest];
        current' := current + 1;
      }
    }
  }

  /**
   * cluster: ids are 0 (rejected) or 1..numClusters; hits of one component
   * share an id; two hits with the same non-zero id are connected; a hit is
   * rejected exactly when its component is below the minimum size; ids are
   * dense and numbered in order of each cluster's earliest hit.
   */
  method Cluster(d: PixelData, w: Windows, minSize: int) returns (c: ClusterData)
    requires d.Aligned()
    ensures |c.clusterIds| == |d.addr| && c.numClusters >= 0
    ensures forall i :: 0 <= i < |d.addr| ==> 0 <= c.clusterIds[i] <= c.numClusters
    ensures forall i, j :: Reachable(d, w, i, j) ==> c.clusterIds[i] == c.clusterIds[j]
    ensures SameIdConnected(d, w, c.clusterIds)
    ensures forall i :: 0 <= i < |d.addr| ==> (c.clusterIds[i] == 0 <==> Rejected(|Component(d, w, i)|, minSize))
    ensures forall k :: 1 <= k <= c.numClusters ==> OccursBefore(c.clusterIds, |d.addr|, k)
    ensures forall j, k :: 0 <= j < |d.addr| && 0 < k < c.clusterIds[j] ==> OccursBefore(c.clusterIds, j, k)
  {
    var n := |d.addr|;
    var ids := seq(n, _ => -1);
    var earliest := 0;
    var current := 1;
    ghost var leaders: seq<nat> := [];
    while earliest < n
      invariant LabelState(d, w, minSize, ids, earliest, current, leaders)
    {
      ids, current, leaders := VisitHit(d, w, minSize, ids, earliest, current, leaders);
      earliest := earliest + 1;
    }
    FinalState(d, w, minSize, ids, current, leaders);
    c := ClusterData(current - 1, ids);
  }

  /** Marking a closed, wholly unmarked set with one id keeps labels agreeing across boxes. */
  lemma MarkPreservesBoxes(d: PixelData, w: Windows, before: seq<int>, after: seq<int>, s: set<nat>, v: int)
    requires |before| == |d.addr| && |after| == |d.addr| && v >= 0
    requires MarksRespectBoxes(d, w, before) && Closed(d, w, s)
    requires forall j :: j in s ==> j < |d.addr| && before[j] < 0
    requires forall j :: 0 <= j < |d.addr| ==> after[j] == if j in s then v else before[j]
    ensures MarksRespectBoxes(d, w, after)
  {
    forall a, b | Adjacent(d, w, a, b) && after[a] >= 0 ensures after[b] == after[a] {
      AdjacentSymmetric(d, w, a, b);
    }
  }

  /* ---------------- the labelling is unique ---------------- */

  /** The whole contract of cluster, as one predicate on its result. */
  ghost predicate IsClustering(d: PixelData, w: Windows, minSize: int, c: ClusterData) {
    d.Aligned() && |c.clusterIds| == |d.addr| && c.numClusters >= 0
    && (forall i :: 0 <= i < |d.addr| ==> 0 <= c.clusterIds[i] <= c.numClusters)
    && (forall i, j :: Reachable(d, w, i, j) ==> c.clusterIds[i] == c.clusterIds[j])
    && SameIdConnected(d, w, c.clusterIds)
    && (forall i :: 0 <= i < |d.addr| ==> (c.clusterIds[i] == 0 <==> Rejected(|Component(d, w, i)|, minSize)))
    && (forall k :: 1 <= k <= c.numClusters ==> OccursBefore(c.clusterIds, |d.addr|, k))
    && (forall j, k :: 0 <= j < |d.addr| && 0 < k < c.clusterIds[j] ==> OccursBefore(c.clusterIds, j, k))
  }

  /** A hit with a larger id than hit j has the id of j somewhere before it. */
  lemma LargerIdAfterSmaller(d: PixelData, w: Windows, minSize: int, c: ClusterData, i: nat, j: nat)
    requires IsClustering(d, w, minSize, c) && i < |d.addr| && j < |d.addr|
    ensures 0 < c.clusterIds[j] < c.clusterIds[i] ==> exists i' :: 0 <= i' < i && Reachable(d, w, i', j)
  {
    var ids := c.clusterIds;
    if 0 < ids[j] < ids[i] {
      assert OccursBefore(ids, i, ids[j]);
      var i' :| 0 <= i' < i && ids[i'] == ids[j];
      assert Reachable(d, w, i', j);
    }
  }

  /**
   * A kept hit with nothing connected before it opens a new cluster: every
   * earlier id is below its id, and its id is one more than some earlier id
   * (or 1).
   */
  lemma OpeningHit(d: PixelData, w: Windows, minSize: int, c: ClusterData, j: nat)
    requires IsClustering(d, w, minSize, c) && j < |d.addr|
    requires !Rejected(|Component(d, w, j)|, minSize)
    requires forall i :: 0 <= i < j ==> !Reachable(d, w, i, j)
    ensures c.clusterIds[j] >= 1
    ensures forall i :: 0 <= i < j ==> c.clusterIds[i] < c.clusterIds[j]
    ensures c.clusterIds[j] == 1 || OccursBefore(c.clusterIds, j, c.clusterIds[j] - 1)
  {
    var ids := c.clusterIds;
    forall i | 0 <= i < j ensures ids[i] < ids[j] {
      assert ids[i] > 0 && ids[i] == ids[j] ==> Reachable(d, w, i, j);
      LargerIdAfterSmaller(d, w, minSize, c, i, j);
    }
    if ids[j] > 1 {
      assert 0 < ids[j] - 1 < ids[j];
    }
  }

  /** Two opening hits seeing the same earlier ids: the first id is at most the second. */
  lemma OpeningIdsBounded(ids1: seq<int>, ids2: seq<int>, j: nat)
    requires j < |ids1| && j < |ids2| && ids1[..j] == ids2[..j]
    requires ids1[j] == 1 || OccursBefore(ids1, j, ids1[j] - 1)
    requires ids2[j] >= 1 && forall i :: 0 <= i < j ==> ids2[i] < ids2[j]
    ensures ids1[j] <= ids2[j]
  {
    if ids1[j] != 1 {
      var i :| 0 <= i < j && ids1[i] == ids1[j] - 1;
      assert ids1[..j][i] == ids2[..j][i];
    }
  }

  /** Two labellings meeting the contract that agree before hit j agree at j. */
  lemma LabelAgrees(d: PixelData, w: Windows, minSize: int, c1: ClusterData, c2: ClusterData, j: nat)
    requires IsClustering(d, w, minSize, c1) && IsClustering(d, w, minSize, c2) && j < |d.addr|
    requires c1.clusterIds[..j] == c2.clusterIds[..j]
    ensures c1.clusterIds[j] == c2.clusterIds[j]
  {
    var ids1, ids2 := c1.clusterIds, c2.clusterIds;
    if Rejected(|Component(d, w, j)|, minSize) {
      assert ids1[j] == 0 && ids2[j] == 0;
    } else if exists i :: 0 <= i < j && Reachable(d, w, i, j) {
      var i :| 0 <= i < j && Reachable(d, w, i, j);
      assert ids1[..j][i] == ids2[..j][i];
    } else {
      OpeningHit(d, w, minSize, c1, j);
      OpeningHit(d, w, minSize, c2, j);
      OpeningIdsBounded(ids1, ids2, j);
      OpeningIdsBounded(ids2, ids1, j);
    }
  }

  /** Labellings with the same ids have the same number of clusters. */
  lemma NumClustersBounded(d: PixelData, w: Windows, minSize: int, c1: ClusterData, c2: ClusterData)
    requires IsClustering(d, w, minSize, c1) && IsClustering(d, w, minSize, c2)
    requires c1.clusterIds == c2.clusterIds
    ensures c2.numClusters <= c1.numClusters
  {
    if c2.numClusters >= 1 {
      assert OccursBefore(c2.clusterIds, |d.addr|, c2.numClusters);
      var i :| 0 <= i < |d.addr| && c2.clusterIds[i] == c2.numClusters;
      assert c1.clusterIds[i] <= c1.numClusters;
    }
  }

  lemma PrefixGrows(a: seq<int>, b: seq<int>, j: nat)
    requires j < |a| && j < |b| && a[..j] == b[..j] && a[j] == b[j]
    ensures a[..j + 1] == b[..j + 1]
  {
    assert a[..j + 1] == a[..j] + [a[j]] && b[..j + 1] == b[..j] + [b[j]];
  }

  /**
   * The contract of cluster determines its result: whichever order the
   * expansions run in, the ids and the cluster count are the same.
   */
  lemma ClusteringUnique(d: PixelData, w: Windows, minSize: int, c1: ClusterData, c2: ClusterData)
    requires IsClustering(d, w, minSize, c1) && IsClustering(d, w, minSize, c2)
    ensures c1 == c2
  {
    var n := |d.addr|;
    for j := 0 to n
      invariant c1.clusterIds[..j] == c2.clusterIds[..j]
    {
      LabelAgrees(d, w, minSize, c1, c2, j);
      PrefixGrows(c1.clusterIds, c2.clusterIds, j);
    }
    assert c1.clusterIds == c1.clusterIds[..n] && c2.clusterIds == c2.clusterIds[..n];
    NumClustersBounded(d, w, minSize, c1, c2);
    NumClustersBounded(d, w, minSize, c2, c1);
  }
}
