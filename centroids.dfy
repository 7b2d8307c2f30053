/**
 * centroid: one centroid per cluster.
 *
 * Hits with id 0 are skipped.  For cluster c (id c + 1) the position is the
 * ToT-weighted mean of the hit positions in metres, and the time is the
 * arrival time of the first hit whose ToT is strictly larger than every
 * earlier one of the cluster.  The weight total is kept in a 16-bit counter,
 * and a zero total trips an assertion.
 *
 * The sums are specified over prefixes of the hit table: XMoment(d, ids, c, k)
 * is the sum over the first k hits.  Moments are kept in pixel units and
 * scaled by the pixel pitch at the division.
 */
module Centroids {
  import opened Wrappers
  import opened Tpx3

  const WeightModulus: int := 0x1_0000

  /** Cluster ids fit the cluster count, one per hit. */
  predicate IdsFit(d: PixelData, ids: seq<int>, numClusters: int) {
    d.Aligned() && |ids| == |d.addr| && numClusters >= 0
    && forall i :: 0 <= i < |ids| ==> 0 <= ids[i] <= numClusters
  }

  /** The ToT of hit i if it belongs to cluster c, else 0. */
  function WeightIn(d: PixelData, ids: seq<int>, c: nat, i: nat): (w: nat)
    requires d.Aligned() && |ids| == |d.addr| && i < |ids|
    ensures ids[i] != c + 1 ==> w == 0
  {
    if ids[i] == c + 1 then d.tot[i] else 0
  }

  /** Total ToT of cluster c over the first k hits, without wrap-around. */
  function WeightSum(d: PixelData, ids: seq<int>, c: nat, k: nat): nat
    requires d.Aligned() && |ids| == |d.addr| && k <= |ids|
  {
    if k == 0 then 0 else WeightSum(d, ids, c, k - 1) + WeightIn(d, ids, c, k - 1)
  }

  /** The 16-bit running total the source keeps. */
  function Weight16(d: PixelData, ids: seq<int>, c: nat, k: nat): (w: int)
    requires d.Aligned() && |ids| == |d.addr| && k <= |ids|
    ensures 0 <= w < WeightModulus
  {
    if k == 0 then 0 else (Weight16(d, ids, c, k - 1) + WeightIn(d, ids, c, k - 1)) % WeightModulus
  }

  /** Sum of column times ToT over the hits of cluster c among the first k (pixel units). */
  function XMoment(d: PixelData, ids: seq<int>, c: nat, k: nat): int
    requires d.Aligned() && |ids| == |d.addr| && k <= |ids|
  {
    if k == 0 then 0 else XMoment(d, ids, c, k - 1) + d.addr[k - 1].x * WeightIn(d, ids, c, k - 1)
  }

  /** Sum of row times ToT over the hits of cluster c among the first k (pixel units). */
  function YMoment(d: PixelData, ids: seq<int>, c: nat, k: nat): int
    requires d.Aligned() && |ids| == |d.addr| && k <= |ids|
  {
    if k == 0 then 0 else YMoment(d, ids, c, k - 1) + d.addr[k - 1].y * WeightIn(d, ids, c, k - 1)
  }

  /** The largest ToT seen so far in a cluster and the arrival time of its first hit. */
  datatype Brightest = Brightest(tot: int, toa: int)

  function BrightestOf(d: PixelData, ids: seq<int>, c: nat, k: nat): Brightest
    requires d.Aligned() && |ids| == |d.addr| && k <= |ids|
  {
    if k == 0 then Brightest(0, 0)
    else
      var prev := BrightestOf(d, ids, c, k - 1);
      if ids[k - 1] == c + 1 && d.tot[k - 1] > prev.tot then Brightest(d.tot[k - 1], d.toa[k - 1]) else prev
  }

  /** The centroid of cluster c as the source computes it: 16-bit weight. */
  function CentroidAsWritten(d: PixelData, ids: seq<int>, c: nat): Centroid
    requires d.Aligned() && |ids| == |d.addr|
    requires Weight16(d, ids, c, |ids|) != 0
  {
    var w := Weight16(d, ids, c, |ids|) as real;
    Centroid(PixelSize * XMoment(d, ids, c, |ids|) as real / w, PixelSize * YMoment(d, ids, c, |ids|) as real / w,
      BrightestOf(d, ids, c, |ids|).toa)
  }

  /**
   * The second loop of centroid: clusters 0..m-1 in order; the first one
   * whose 16-bit weight is zero stops with the assertion failure.
   */
  function CentroidsUpTo(d: PixelData, ids: seq<int>, m: nat): Result<seq<Centroid>, nat>
    requires d.Aligned() && |ids| == |d.addr|
  {
    if m == 0 then Ok([])
    else
      match CentroidsUpTo(d, ids, m - 1)
      case Err(c) => Err(c)
      case Ok(es) =>
        if Weight16(d, ids, m - 1, |ids|) == 0 then Err(m - 1)
        else Ok(es + [CentroidAsWritten(d, ids, m - 1)])
  }

  /** The per-cluster accumulators of the first loop. */
  datatype Sums = Sums(x: seq<int>, y: seq<int>, weight: seq<int>, maxTot: seq<int>, toa: seq<int>)

  /** The accumulators hold the prefix sums of the first k hits for clusters 0..m-1. */
  predicate SumsAfter(s: Sums, d: PixelData, ids: seq<int>, m: nat, k: nat)
    requires d.Aligned() && |ids| == |d.addr| && k <= |ids|
  {
    |s.x| == m && |s.y| == m && |s.weight| == m && |s.maxTot| == m && |s.toa| == m
    && (forall c :: 0 <= c < m ==> s.x[c] == XMoment(d, ids, c, k) && s.y[c] == YMoment(d, ids, c, k))
    && (forall c :: 0 <= c < m ==> s.weight[c] == Weight16(d, ids, c, k))
    && (forall c :: 0 <= c < m ==> s.maxTot[c] == BrightestOf(d, ids, c, k).tot && s.toa[c] == BrightestOf(d, ids, c, k).toa)
  }

  /** One pass of the first loop: add hit ix to its cluster's accumulators. */
  method AddHit(d: PixelData, ids: seq<int>, m: nat, ix: nat, s: Sums) returns (s': Sums)
    requires IdsFit(d, ids, m) && ix < |ids| && SumsAfter(s, d, ids, m, ix)
    ensures SumsAfter(s', d, ids, m, ix + 1)
  {
    s' := s;
    if ids[ix] != 0 {
      var cid := ids[ix] - 1;
      var x := d.addr[ix].x;
      var y := d.addr[ix].y;
      var tot := d.tot[ix];
      var weight := tot;
      s' := s'.(x := s'.x[cid := s'.x[cid] + x * weight], y := s'.y[cid := s'.y[cid] + y * weight]);
      s' := s'.(weight := s'.weight[cid := (s'.weight[cid] + weight) % WeightModulus]);
      if tot > s'.maxTot[cid] {
        s' := s'.(maxTot := s'.maxTot[cid := tot], toa := s'.toa[cid := d.toa[ix]]);
      }
    }
    forall c | 0 <= c < m
      ensures s'.x[c] == XMoment(d, ids, c, ix + 1) && s'.y[c] == YMoment(d, ids, c, ix + 1)
      ensures s'.weight[c] == Weight16(d, ids, c, ix + 1)
      ensures s'.maxTot[c] == BrightestOf(d, ids, c, ix + 1).tot && s'.toa[c] == BrightestOf(d, ids, c, ix + 1).toa
    {
      if ids[ix] == c + 1 {
        StepMember(d, ids, c, ix);
      } else {
        StepOthers(d, ids, c, ix);
      }
    }
  }

  /** A hit of another cluster, or an unclustered hit, leaves cluster c's sums alone. */
  lemma {:induction false} StepOthers(d: PixelData, ids: seq<int>, c: nat, ix: nat)
    requires d.Aligned() && |ids| == |d.addr| && ix < |ids| && ids[ix] != c + 1
    ensures XMoment(d, ids, c, ix + 1) == XMoment(d, ids, c, ix)
      && YMoment(d, ids, c, ix + 1) == YMoment(d, ids, c, ix)
      && Weight16(d, ids, c, ix + 1) == Weight16(d, ids, c, ix)
      && BrightestOf(d, ids, c, ix + 1) == BrightestOf(d, ids, c, ix)
  {
  }

  /** A hit of cluster c adds its moments, and its ToT modulo 2^16 to the weight. */
  lemma {:induction false} StepMember(d: PixelData, ids: seq<int>, c: nat, ix: nat)
    requires d.Aligned() && |ids| == |d.addr| && ix < |ids| && ids[ix] == c + 1
    ensures XMoment(d, ids, c, ix + 1) == XMoment(d, ids, c, ix) + d.addr[ix].x * d.tot[ix]
      && YMoment(d, ids, c, ix + 1) == YMoment(d, ids, c, ix) + d.addr[ix].y * d.tot[ix]
      && Weight16(d, ids, c, ix + 1) == (Weight16(d, ids, c, ix) + d.tot[ix]) % WeightModulus
  {
  }

  /**
   * centroid: accumulate per-cluster sums over the hits, then divide.  Err(c)
   * is the assertion on cluster c's zero weight.
   */
  method ComputeCentroids(d: PixelData, ids: seq<int>, numClusters: int) returns (r: Result<seq<Centroid>, nat>)
    requires IdsFit(d, ids, numClusters)
    ensures r == CentroidsUpTo(d, ids, numClusters)
  {
    var n := |d.addr|;
    var m := numClusters;
    var s := Sums(seq(m, _ => 0), seq(m, _ => 0), seq(m, _ => 0), seq(m, _ => 0), seq(m, _ => 0));
    for ix := 0 to n
      invariant SumsAfter(s, d, ids, m, ix)
    {
      s := AddHit(d, ids, m, ix, s);
    }
    r := DivideSums(d, ids, m, s);
  }

  /** The second loop of centroid: divide each cluster's moments by its weight. */
  method DivideSums(d: PixelData, ids: seq<int>, m: nat, s: Sums) returns (r: Result<seq<Centroid>, nat>)
    requires d.Aligned() && |ids| == |d.addr| && SumsAfter(s, d, ids, m, |ids|)
    ensures r == CentroidsUpTo(d, ids, m)
  {
    var events: seq<Centroid> := [];
    for c := 0 to m
      invariant CentroidsUpTo(d, ids, c) == Ok(events)
    {
      assert s.weight[c] == Weight16(d, ids, c, |ids|);
      if s.weight[c] == 0 {
        ErrPersists(d, ids, c, m);
        return Err(c);
      }
      var e := Centroid(PixelSize * s.x[c] as real / s.weight[c] as real,
        PixelSize * s.y[c] as real / s.weight[c] as real, s.toa[c]);
      assert e == CentroidAsWritten(d, ids, c);
      events := events + [e];
    }
    return Ok(events);
  }

  /** Once a cluster trips the assertion, later clusters are never reached. */
  lemma {:induction false} ErrPersists(d: PixelData, ids: seq<int>, c: nat, m: nat)
    requires d.Aligned() && |ids| == |d.addr| && c < m
    requires CentroidsUpTo(d, ids, c).Ok? && Weight16(d, ids, c, |ids|) == 0
    ensures CentroidsUpTo(d, ids, m) == Err(c)
  {
    if m > c + 1 {
      ErrPersists(d, ids, c, m - 1);
    }
  }

  /* ---------------- what the sums mean ---------------- */

  /** The 16-bit running total is the true total modulo 2^16. */
  lemma {:induction false} Weight16IsWrappedSum(d: PixelData, ids: seq<int>, c: nat, k: nat)
    requires d.Aligned() && |ids| == |d.addr| && k <= |ids|
    ensures Weight16(d, ids, c, k) == WeightSum(d, ids, c, k) % WeightModulus
  {
    if k > 0 {
      Weight16IsWrappedSum(d, ids, c, k - 1);
      WrapAdd(WeightSum(d, ids, c, k - 1), WeightIn(d, ids, c, k - 1));
    }
  }

  /** Wrapping the running total before adding does not change the wrapped sum. */
  lemma WrapAdd(a: int, w: int)
    ensures (a % WeightModulus + w) % WeightModulus == (a + w) % WeightModulus
  {
    assert a == (a / WeightModulus) * WeightModulus + a % WeightModulus;
  }

  /** One centroid per cluster, unless some cluster's 16-bit weight is zero. */
  lemma {:induction false} CentroidsOnePerCluster(d: PixelData, ids: seq<int>, m: nat)
    requires d.Aligned() && |ids| == |d.addr|
    ensures CentroidsUpTo(d, ids, m).Ok? <==> forall c :: 0 <= c < m ==> Weight16(d, ids, c, |ids|) != 0
    ensures CentroidsUpTo(d, ids, m).Ok? ==> (|CentroidsUpTo(d, ids, m).value| == m
      && forall c :: 0 <= c < m ==> CentroidsUpTo(d, ids, m).value[c] == CentroidAsWritten(d, ids, c))
  {
    if m > 0 {
      CentroidsOnePerCluster(d, ids, m - 1);
      var prev := CentroidsUpTo(d, ids, m - 1);
      if prev.Ok? && Weight16(d, ids, m - 1, |ids|) != 0 {
        var es := prev.value + [CentroidAsWritten(d, ids, m - 1)];
        assert CentroidsUpTo(d, ids, m) == Ok(es);
        assert forall c :: 0 <= c < m - 1 ==> es[c] == prev.value[c];
      } else if prev.Ok? {
        assert CentroidsUpTo(d, ids, m) == Err(m - 1);
        assert !(forall c :: 0 <= c < m ==> Weight16(d, ids, c, |ids|) != 0) by {
          assert Weight16(d, ids, m - 1, |ids|) == 0;
        }
      } else {
        assert CentroidsUpTo(d, ids, m) == Err(prev.error);
      }
    }
  }

  /** Hits of other clusters, and hits with id 0, contribute nothing to cluster c. */
  lemma {:induction false} OnlyMembersCount(d: PixelData, ids: seq<int>, c: nat, k: nat)
    requires d.Aligned() && |ids| == |d.addr| && k <= |ids|
    requires forall i :: 0 <= i < k ==> ids[i] != c + 1
    ensures WeightSum(d, ids, c, k) == 0 && XMoment(d, ids, c, k) == 0 && YMoment(d, ids, c, k) == 0
    ensures BrightestOf(d, ids, c, k) == Brightest(0, 0)
  {
    if k > 0 {
      OnlyMembersCount(d, ids, c, k - 1);
    }
  }

  /** Hit i is the first hit of cluster c among the first k with ToT b.tot, and has time b.toa. */
  predicate FirstBrightest(d: PixelData, ids: seq<int>, c: nat, k: nat, i: int, b: Brightest)
    requires d.Aligned() && |ids| == |d.addr| && k <= |ids|
  {
    0 <= i < k && ids[i] == c + 1 && d.tot[i] == b.tot && d.toa[i] == b.toa
    && forall j :: 0 <= j < i && ids[j] == c + 1 ==> d.tot[j] < b.tot
  }

  /**
   * The time rule: the recorded ToT is the largest in the cluster, and when
   * it is positive the time is that of the first hit reaching it.
   */
  lemma {:induction false} BrightestIsFirstMaximum(d: PixelData, ids: seq<int>, c: nat, k: nat)
    requires d.Aligned() && |ids| == |d.addr| && k <= |ids|
    ensures var b := BrightestOf(d, ids, c, k);
      0 <= b.tot && (forall i :: 0 <= i < k && ids[i] == c + 1 ==> d.tot[i] <= b.tot)
      && (b.tot == 0 ==> b.toa == 0)
      && (b.tot > 0 ==> exists i :: FirstBrightest(d, ids, c, k, i, b))
  {
    if k > 0 {
      BrightestIsFirstMaximum(d, ids, c, k - 1);
      var prev := BrightestOf(d, ids, c, k - 1);
      var b := BrightestOf(d, ids, c, k);
      if ids[k - 1] == c + 1 && d.tot[k - 1] > prev.tot {
        assert FirstBrightest(d, ids, c, k, k - 1, b);
      } else if b.tot > 0 {
        var i :| FirstBrightest(d, ids, c, k - 1, i, prev);
        assert FirstBrightest(d, ids, c, k, i, b);
      }
    }
  }

  /**
   * With the true total, the column moment lies between the smallest and
   * largest column of the cluster's hits, times the total.
   */
  lemma {:induction false} XMomentBounds(d: PixelData, ids: seq<int>, c: nat, k: nat, lo: int, hi: int)
    requires d.Aligned() && |ids| == |d.addr| && k <= |ids|
    requires forall i :: 0 <= i < k && ids[i] == c + 1 ==> lo <= d.addr[i].x <= hi
    ensures lo * WeightSum(d, ids, c, k) <= XMoment(d, ids, c, k) <= hi * WeightSum(d, ids, c, k)
  {
    if k > 0 {
      XMomentBounds(d, ids, c, k - 1, lo, hi);
      var w := WeightIn(d, ids, c, k - 1);
      TermBetween(lo, d.addr[k - 1].x, hi, w);
      Distribute(lo, WeightSum(d, ids, c, k - 1), w);
      Distribute(hi, WeightSum(d, ids, c, k - 1), w);
    }
  }

  /** A non-member contributes w = 0; a member lies between the bounds. */
  lemma TermBetween(a: int, x: int, b: int, w: nat)
    requires w == 0 || a <= x <= b
    ensures a * w <= x * w <= b * w
  {
  }

  lemma Distribute(a: int, u: int, v: int)
    ensures a * (u + v) == a * u + a * v
  {
  }

  /** The intended centroid column: the true weighted mean, in metres. */
  function IntendedX(d: PixelData, ids: seq<int>, c: nat): real
    requires d.Aligned() && |ids| == |d.addr| && WeightSum(d, ids, c, |ids|) > 0
  {
    PixelSize * XMoment(d, ids, c, |ids|) as real / WeightSum(d, ids, c, |ids|) as real
  }

  /** With the true weight the centroid lies inside the cluster's column range. */
  lemma IntendedXWithinCluster(d: PixelData, ids: seq<int>, c: nat, lo: int, hi: int)
    requires d.Aligned() && |ids| == |d.addr| && WeightSum(d, ids, c, |ids|) > 0
    requires forall i :: 0 <= i < |ids| && ids[i] == c + 1 ==> lo <= d.addr[i].x <= hi
    ensures lo as real * PixelSize <= IntendedX(d, ids, c) <= hi as real * PixelSize
  {
    XMomentBounds(d, ids, c, |ids|, lo, hi);
    var w := WeightSum(d, ids, c, |ids|);
    var s := XMoment(d, ids, c, |ids|);
    MeanBetween(s, w, lo, hi);
  }

  /** The row moment lies between the smallest and largest row of the cluster, times the total. */
  lemma {:induction false} YMomentBounds(d: PixelData, ids: seq<int>, c: nat, k: nat, lo: int, hi: int)
    requires d.Aligned() && |ids| == |d.addr| && k <= |ids|
    requires forall i :: 0 <= i < k && ids[i] == c + 1 ==> lo <= d.addr[i].y <= hi
    ensures lo * WeightSum(d, ids, c, k) <= YMoment(d, ids, c, k) <= hi * WeightSum(d, ids, c, k)
  {
    if k > 0 {
      YMomentBounds(d, ids, c, k - 1, lo, hi);
      var w := WeightIn(d, ids, c, k - 1);
      TermBetween(lo, d.addr[k - 1].y, hi, w);
      Distribute(lo, WeightSum(d, ids, c, k - 1), w);
      Distribute(hi, WeightSum(d, ids, c, k - 1), w);
    }
  }

  /** The intended centroid row: the true weighted mean, in metres. */
  function IntendedY(d: PixelData, ids: seq<int>, c: nat): real
    requires d.Aligned() && |ids| == |d.addr| && WeightSum(d, ids, c, |ids|) > 0
  {
    PixelSize * YMoment(d, ids, c, |ids|) as real / WeightSum(d, ids, c, |ids|) as real
  }

  /** With the true weight the centroid lies inside the cluster's row range. */
  lemma IntendedYWithinCluster(d: PixelData, ids: seq<int>, c: nat, lo: int, hi: int)
    requires d.Aligned() && |ids| == |d.addr| && WeightSum(d, ids, c, |ids|) > 0
    requires forall i :: 0 <= i < |ids| && ids[i] == c + 1 ==> lo <= d.addr[i].y <= hi
    ensures lo as real * PixelSize <= IntendedY(d, ids, c) <= hi as real * PixelSize
  {
    YMomentBounds(d, ids, c, |ids|, lo, hi);
    MeanBetween(YMoment(d, ids, c, |ids|), WeightSum(d, ids, c, |ids|), lo, hi);
  }

  /** lo <= s / w <= hi, scaled by the pixel pitch. */
  lemma MeanBetween(s: int, w: int, lo: int, hi: int)
    requires w > 0 && lo * w <= s <= hi * w
    ensures lo as real * PixelSize <= PixelSize * s as real / w as real <= hi as real * PixelSize
  {
    CastProduct(lo, w);
    CastProduct(hi, w);
    QuotientBetween(s as real, w as real, lo as real, hi as real);
    ScaleBetween(lo as real, s as real / w as real, hi as real, PixelSize);
    assert PixelSize * s as real / w as real == PixelSize * (s as real / w as real);
  }

  lemma CastProduct(a: int, b: int)
    ensures (a * b) as real == a as real * b as real
  {
  }

  lemma QuotientBetween(s: real, w: real, lo: real, hi: real)
    requires w > 0.0 && lo * w <= s <= hi * w
    ensures lo <= s / w <= hi
  {
    var q := s / w;
    assert q * w == s;
    assert (q - lo) * w >= 0.0 && (hi - q) * w >= 0.0;
  }

  lemma ScaleBetween(lo: real, q: real, hi: real, p: real)
    requires p > 0.0 && lo <= q <= hi
    ensures lo * p <= p * q <= hi * p
  {
  }

  /* ---------------- the 16-bit total, exhibited ---------------- */

  /** n hits of one cluster at column x, row y, time 0 and ToT t. */
  function Uniform(n: nat, x: U8, y: U8, t: U16): PixelData {
    PixelData(seq(n, _ => PixelAddr(x, y)), seq(n, _ => 0), seq(n, _ => t))
  }

  lemma {:induction false} UniformSums(n: nat, x: U8, y: U8, t: U16, k: nat)
    requires k <= n
    ensures WeightSum(Uniform(n, x, y, t), seq(n, _ => 1), 0, k) == k * t
    ensures XMoment(Uniform(n, x, y, t), seq(n, _ => 1), 0, k) == k * t * x
  {
    if k > 0 {
      var d := Uniform(n, x, y, t);
      var ids := seq(n, _ => 1);
      UniformSums(n, x, y, t, k - 1);
      assert WeightIn(d, ids, 0, k - 1) == t && d.addr[k - 1].x == x;
      OneMore(k, t, x);
    }
  }

  lemma OneMore(k: int, t: int, x: int)
    ensures k * t == (k - 1) * t + t
    ensures k * t * x == (k - 1) * t * x + x * t
  {
    Distribute(t, k - 1, 1);
    Distribute(t * x, k - 1, 1);
  }

  /**
   * 65 hits at column 10 with ToT 1023 total 66495, which the 16-bit counter
   * holds as 959: the computed column is about 693 pixels, off the sensor,
   * while the true mean is column 10.
   */
  lemma WrappedWeightMisplacesCentroid()
    ensures var d := Uniform(65, 10, 10, 1023);
      var ids := seq(65, _ => 1);
      Weight16(d, ids, 0, 65) == 959
      && CentroidAsWritten(d, ids, 0).x > (SensorSize - 1) as real * PixelSize
      && IntendedX(d, ids, 0) == 10.0 * PixelSize
  {
    var d := Uniform(65, 10, 10, 1023);
    var ids := seq(65, _ => 1);
    UniformSums(65, 10, 10, 1023, 65);
    Weight16IsWrappedSum(d, ids, 0, 65);
    assert WeightSum(d, ids, 0, 65) == 66495;
    assert XMoment(d, ids, 0, 65) == 664950;
  }

  /** 128 hits with ToT 512 total exactly 2^16: the counter reads 0 and the assertion fires. */
  lemma WrappedWeightTripsAssertion()
    ensures var d := Uniform(128, 10, 10, 512);
      var ids := seq(128, _ => 1);
      WeightSum(d, ids, 0, 128) == 65536 && CentroidsUpTo(d, ids, 1) == Err(0)
  {
    var d := Uniform(128, 10, 10, 512);
    var ids := seq(128, _ => 1);
    UniformSums(128, 10, 10, 512, 128);
    Weight16IsWrappedSum(d, ids, 0, 128);
  }

  /* ---------------- the progress modulus ---------------- */

  /**
   * The progress test in the hit loop of centroid, as written: it divides
   * by numPackets / 100, which is 0 for fewer than 100 hits.  None is the
   * division by zero.
   */
  function ProgressDueAsWritten(ix: nat, numPackets: nat): Option<bool> {
    var step := numPackets / 100;
    if step == 0 then None else Some(ix % step == 0)
  }

  /** Every clustered hit of a file with fewer than 100 hits reaches the division by zero. */
  lemma SmallFileDividesByZero(ix: nat, numPackets: nat)
    requires numPackets < 100
    ensures ProgressDueAsWritten(ix, numPackets) == None
  {
  }

  /** The one-percent step cluster and findCoincidences use: numPackets / 100 + 1. */
  function OnePercent(numPackets: nat): (step: nat)
    ensures step >= 1 && step * 100 > numPackets
  {
    numPackets / 100 + 1
  }

  /** The progress test with that step: never divides by zero. */
  function ProgressDue(ix: nat, numPackets: nat): bool {
    ix % OnePercent(numPackets) == 0
  }

  /**
   * With the corrected step the first hit always reports, and at most 100
   * hits of the file report.
   */
  lemma ProgressDueAtMostHundred(ix: nat, numPackets: nat)
    ensures ProgressDue(0, numPackets)
    ensures ix < numPackets && ProgressDue(ix, numPackets) ==> ix / OnePercent(numPackets) < 100
    ensures ProgressDue(ix, numPackets) <==> ix == ix / OnePercent(numPackets) * OnePercent(numPackets)
  {
    var step := OnePercent(numPackets);
    if ix < numPackets && ProgressDue(ix, numPackets) {
      assert ix / step * step <= ix;
      DivBelow(ix, step, 100);
    }
  }

  lemma DivBelow(a: nat, b: nat, q: nat)
    requires b >= 1 && a < b * q
    ensures a / b < q
  {
  }
}
