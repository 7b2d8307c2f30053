/**
 * Tpx3Image: the loaded contents of one file and the integer histograms
 * drawn from it.
 *
 * Images are 256 x 256 grids of counts indexed [x][y].  Every histogram is
 * built by incrementing counters hit by hit; each is specified by a
 * counting function over the hits, and the totals are tied back to the
 * number of hits counted.
 */
module Tpx3Images {
  import opened Wrappers
  import opened Tpx3
  import Centroids

  /** The contents of one imported file. */
  datatype Tpx3Image = Tpx3Image(
    data: PixelData,
    clusters: ClusterData,
    centroids: seq<Centroid>,
    pairs: seq<CoincidencePair>,
    nfolds: seq<CoincidenceNFold>)
  {
    function NumRawPackets(): (n: nat)
      requires data.Aligned()
      ensures n == |data.addr| && n == |data.toa| && n == |data.tot|
    {
      data.NumPackets()
    }

    function NumClusters(): int {
      clusters.numClusters
    }

    /** No raw hits at all, whatever else the image holds. */
    function Empty(): (b: bool)
      requires data.Aligned()
      ensures b <==> NumRawPackets() == 0
      ensures b <==> data.addr == []
    {
      data.IsEmpty()
    }
  }

  /* ---------------- sums ---------------- */

  function Sum(s: seq<int>): int {
    if s == [] then 0 else Sum(s[..|s| - 1]) + s[|s| - 1]
  }

  /** Adding d to one entry adds d to the sum. */
  lemma {:induction false} SumUpdate(s: seq<int>, i: nat, d: int)
    requires i < |s|
    ensures Sum(s[i := s[i] + d]) == Sum(s) + d
  {
    var t := s[i := s[i] + d];
    var n := |s|;
    assert t[..n - 1] == if i < n - 1 then s[..n - 1][i := s[i] + d] else s[..n - 1];
    if i < n - 1 {
      SumUpdate(s[..n - 1], i, d);
    }
  }

  lemma {:induction false} SumZeros(n: nat)
    ensures Sum(seq(n, _ => 0)) == 0
  {
    if n > 0 {
      assert seq(n, _ => 0)[..n - 1] == seq(n - 1, _ => 0);
      SumZeros(n - 1);
    }
  }

  lemma SumAppend(s: seq<int>, x: int)
    ensures Sum(s + [x]) == Sum(s) + x
  {
    assert (s + [x])[..|s|] == s;
  }

  /* ---------------- 256 x 256 count grids ---------------- */

  predicate IsGrid(g: seq<seq<int>>) {
    |g| == SensorSize && forall x :: 0 <= x < SensorSize ==> |g[x]| == SensorSize
  }

  function ZeroGrid(): (g: seq<seq<int>>)
    ensures IsGrid(g) && forall x, y :: 0 <= x < SensorSize && 0 <= y < SensorSize ==> g[x][y] == 0
  {
    seq(SensorSize, _ => seq(SensorSize, _ => 0))
  }

  /** The sum of every cell of a grid. */
  function GridTotal(g: seq<seq<int>>): int {
    if g == [] then 0 else GridTotal(g[..|g| - 1]) + Sum(g[|g| - 1])
  }

  /** One more count in cell (x, y). */
  function Bump(g: seq<seq<int>>, x: nat, y: nat): (g': seq<seq<int>>)
    requires IsGrid(g) && x < SensorSize && y < SensorSize
    ensures IsGrid(g') && g'[x][y] == g[x][y] + 1
    ensures forall a, b :: 0 <= a < SensorSize && 0 <= b < SensorSize && (a != x || b != y) ==> g'[a][b] == g[a][b]
  {
    g[x := g[x][y := g[x][y] + 1]]
  }

  lemma {:induction false} GridTotalUpdate(g: seq<seq<int>>, x: nat, row: seq<int>)
    requires x < |g|
    ensures GridTotal(g[x := row]) == GridTotal(g) - Sum(g[x]) + Sum(row)
  {
    var n := |g|;
    var h := g[x := row];
    if x < n - 1 {
      assert h[..n - 1] == g[..n - 1][x := row];
      GridTotalUpdate(g[..n - 1], x, row);
    } else {
      assert h[..n - 1] == g[..n - 1];
    }
  }

  lemma BumpTotal(g: seq<seq<int>>, x: nat, y: nat)
    requires IsGrid(g) && x < SensorSize && y < SensorSize
    ensures GridTotal(Bump(g, x, y)) == GridTotal(g) + 1
  {
    SumUpdate(g[x], y, 1);
    GridTotalUpdate(g, x, g[x][y := g[x][y] + 1]);
  }

  lemma {:induction false} GridTotalZero(n: nat)
    requires n <= SensorSize
    ensures GridTotal(ZeroGrid()[..n]) == 0
  {
    if n > 0 {
      assert ZeroGrid()[..n][..n - 1] == ZeroGrid()[..n - 1];
      GridTotalZero(n - 1);
      SumZeros(SensorSize);
    }
  }

  /* ---------------- rawPacketImage ---------------- */

  /** The number of hits at pixel (x, y). */
  function HitsAt(addrs: seq<PixelAddr>, x: int, y: int): nat {
    if addrs == [] then 0
    else HitsAt(addrs[..|addrs| - 1], x, y) + (if addrs[|addrs| - 1].x == x && addrs[|addrs| - 1].y == y then 1 else 0)
  }

  /** The grid of hit counts per pixel. */
  function HitGrid(addrs: seq<PixelAddr>): (g: seq<seq<int>>)
    ensures IsGrid(g)
    ensures forall x, y :: 0 <= x < SensorSize && 0 <= y < SensorSize ==> g[x][y] == HitsAt(addrs, x, y)
  {
    seq(SensorSize, x => seq(SensorSize, y => HitsAt(addrs, x, y)))
  }

  /** rawPacketImage: one count per hit, at the hit's pixel. */
  method RawPacketImage(image: Tpx3Image) returns (counts: seq<seq<int>>)
    ensures IsGrid(counts)
    ensures forall x, y :: 0 <= x < SensorSize && 0 <= y < SensorSize ==> counts[x][y] == HitsAt(image.data.addr, x, y)
    ensures counts == HitGrid(image.data.addr)
    ensures GridTotal(counts) == |image.data.addr|
  {
    var addrs := image.data.addr;
    counts := ZeroGrid();
    GridTotalZero(SensorSize);
    assert ZeroGrid()[..SensorSize] == ZeroGrid();
    for k := 0 to |addrs|
      invariant IsGrid(counts) && GridTotal(counts) == k
      invariant forall x, y :: 0 <= x < SensorSize && 0 <= y < SensorSize ==> counts[x][y] == HitsAt(addrs[..k], x, y)
    {
      var packet := addrs[k];
      BumpTotal(counts, packet.x, packet.y);
      counts := Bump(counts, packet.x, packet.y);
      assert addrs[..k + 1][..k] == addrs[..k];
    }
    assert addrs[..|addrs|] == addrs;
    assert forall x :: 0 <= x < SensorSize ==> counts[x] == HitGrid(addrs)[x];
  }

  /* ---------------- clusterImage ---------------- */

  /** The pixel index of a position in metres: divided by the pitch and truncated. */
  function PixelIndex(p: real): int {
    if p >= 0.0 then (p / PixelSize).Floor else -((-p / PixelSize).Floor)
  }

  predicate OnSensor(c: Centroid) {
    0 <= PixelIndex(c.x) < SensorSize && 0 <= PixelIndex(c.y) < SensorSize
  }

  /** The number of centroids whose truncated position is pixel (x, y). */
  function CentroidsAt(cs: seq<Centroid>, x: int, y: int): nat {
    if cs == [] then 0
    else
      var c := cs[|cs| - 1];
      CentroidsAt(cs[..|cs| - 1], x, y) + (if PixelIndex(c.x) == x && PixelIndex(c.y) == y then 1 else 0)
  }

  /**
   * clusterImage: one count per centroid at its truncated pixel.  A centroid
   * off the sensor would be written out of bounds, so all must be on it.
   */
  method ClusterImage(image: Tpx3Image) returns (counts: seq<seq<int>>)
    requires forall i :: 0 <= i < |image.centroids| ==> OnSensor(image.centroids[i])
    ensures IsGrid(counts)
    ensures forall x, y :: 0 <= x < SensorSize && 0 <= y < SensorSize ==> counts[x][y] == CentroidsAt(image.centroids, x, y)
    ensures GridTotal(counts) == |image.centroids|
  {
    var cs := image.centroids;
    counts := ZeroGrid();
    GridTotalZero(SensorSize);
    assert ZeroGrid()[..SensorSize] == ZeroGrid();
    for k := 0 to |cs|
      invariant IsGrid(counts) && GridTotal(counts) == k
      invariant forall x, y :: 0 <= x < SensorSize && 0 <= y < SensorSize ==> counts[x][y] == CentroidsAt(cs[..k], x, y)
    {
      var pxX := PixelIndex(cs[k].x);
      var pxY := PixelIndex(cs[k].y);
      BumpTotal(counts, pxX, pxY);
      counts := Bump(counts, pxX, pxY);
      assert cs[..k + 1][..k] == cs[..k];
    }
    assert cs[..|cs|] == cs;
  }

  /**
   * As written, the 16-bit weight can put a centroid off the sensor: 65 hits
   * at column 10 with ToT 1023 wrap the weight to 959, and the column lands
   * at pixel 693, past the 256 x 256 grid clusterImage writes into.
   */
  lemma WrappedWeightCentroidOffSensor()
    ensures var d := Centroids.Uniform(65, 10, 10, 1023);
      var ids := seq(65, _ => 1);
      Centroids.Weight16(d, ids, 0, 65) == 959
      && !OnSensor(Centroids.CentroidAsWritten(d, ids, 0))
      && PixelIndex(Centroids.CentroidAsWritten(d, ids, 0).x) == 693
  {
    var d := Centroids.Uniform(65, 10, 10, 1023);
    var ids := seq(65, _ => 1);
    Centroids.UniformSums(65, 10, 10, 1023, 65);
    Centroids.Weight16IsWrappedSum(d, ids, 0, 65);
    assert Centroids.WeightSum(d, ids, 0, 65) == 66495;
    assert Centroids.XMoment(d, ids, 0, 65) == 664950;
    var x := Centroids.CentroidAsWritten(d, ids, 0).x;
    assert x == PixelSize * 664950.0 / 959.0;
    assert x / PixelSize == 664950.0 / 959.0;
    assert 693.0 <= 664950.0 / 959.0 < 694.0;
  }

  /**
   * With the true weight every centroid is on the sensor: its column and
   * row lie within those of its cluster's hits, which are pixels.
   */
  lemma IntendedCentroidOnSensor(d: PixelData, ids: seq<int>, c: nat)
    requires d.Aligned() && |ids| == |d.addr| && Centroids.WeightSum(d, ids, c, |ids|) > 0
    ensures OnSensor(Centroid(Centroids.IntendedX(d, ids, c), Centroids.IntendedY(d, ids, c), Centroids.BrightestOf(d, ids, c, |ids|).toa))
  {
    Centroids.IntendedXWithinCluster(d, ids, c, 0, SensorSize - 1);
    Centroids.IntendedYWithinCluster(d, ids, c, 0, SensorSize - 1);
    PixelOfBetween(Centroids.IntendedX(d, ids, c));
    PixelOfBetween(Centroids.IntendedY(d, ids, c));
  }

  /** A position between 0 and the last pixel's edge truncates to a pixel. */
  lemma PixelOfBetween(p: real)
    requires 0.0 <= p <= (SensorSize - 1) as real * PixelSize
    ensures 0 <= PixelIndex(p) < SensorSize
  {
    assert p / PixelSize <= (SensorSize - 1) as real;
  }

  /* ---------------- toTDistribution ---------------- */

  /** The number of hits whose ToT lies in [lo, hi). */
  function TotsIn(tots: seq<U16>, lo: int, hi: int): nat {
    if tots == [] then 0
    else TotsIn(tots[..|tots| - 1], lo, hi) + (if lo <= tots[|tots| - 1] < hi then 1 else 0)
  }

  /** Ranges that meet end to end count the hits of their union. */
  lemma {:induction false} TotsInSplit(tots: seq<U16>, lo: int, mid: int, hi: int)
    requires lo <= mid <= hi
    ensures TotsIn(tots, lo, hi) == TotsIn(tots, lo, mid) + TotsIn(tots, mid, hi)
  {
    if tots != [] {
      TotsInSplit(tots[..|tots| - 1], lo, mid, hi);
    }
  }

  /** Every ToT below 1024 lies in [0, 1024). */
  lemma {:induction false} TotsInAll(tots: seq<U16>)
    requires forall i :: 0 <= i < |tots| ==> tots[i] < TotCodes
    ensures TotsIn(tots, 0, TotCodes) == |tots|
  {
    if tots != [] {
      TotsInAll(tots[..|tots| - 1]);
    }
  }

  /** Number of bins of width b covering the 1024 ToT codes: ceil(1024 / b). */
  function NumToTBins(b: nat): (n: nat)
    requires b >= 1
    ensures n * b >= TotCodes && (n - 1) * b < TotCodes
  {
    (TotCodes + b - 1) / b
  }

  function Min(a: int, b: int): int {
    if a <= b then a else b
  }

  /** The ToT codes of bin i: [i * b, min((i + 1) * b, 1024)). */
  function BinCount(tots: seq<U16>, b: nat, i: nat): nat {
    TotsIn(tots, i * b, Min((i + 1) * b, TotCodes))
  }

  /** Sum over a range of a count table. */
  function TableSum(h: seq<int>, lo: int, hi: int): int
    requires 0 <= lo <= hi <= |h|
    decreases hi - lo
  {
    if lo == hi then 0 else TableSum(h, lo, hi - 1) + h[hi - 1]
  }

  /** A table of per-code counts sums to the count of the code range. */
  lemma {:induction false} TableSumCounts(h: seq<int>, tots: seq<U16>, lo: int, hi: int)
    requires 0 <= lo <= hi <= |h|
    requires forall j :: lo <= j < hi ==> h[j] == TotsIn(tots, j, j + 1)
    ensures TableSum(h, lo, hi) == TotsIn(tots, lo, hi)
    decreases hi - lo
  {
    if lo < hi {
      TableSumCounts(h, tots, lo, hi - 1);
      TotsInSplit(tots, lo, hi - 1, hi);
    } else {
      TotsInEmpty(tots, lo, hi);
    }
  }

  /**
   * toTDistribution: count each ToT code, then sum the codes of each bin.
   * x is the lower edge of the bin in seconds, y its count.
   */
  /** The per-code histogram: entry j counts the hits of ToT j. */
  method CountToTs(tots: seq<U16>) returns (totHist: seq<int>)
    requires forall i :: 0 <= i < |tots| ==> tots[i] < TotCodes
    ensures |totHist| == TotCodes
    ensures forall j :: 0 <= j < TotCodes ==> totHist[j] == TotsIn(tots, j, j + 1)
  {
    totHist := seq(TotCodes, _ => 0);
    for ix := 0 to |tots|
      invariant |totHist| == TotCodes
      invariant forall j :: 0 <= j < TotCodes ==> totHist[j] == TotsIn(tots[..ix], j, j + 1)
    {
      var tot := tots[ix];
      totHist := totHist[tot := totHist[tot] + 1];
      assert tots[..ix + 1][..ix] == tots[..ix];
    }
    assert tots[..|tots|] == tots;
  }

  /** The sum of the per-code counts lo .. hi - 1. */
  method SumCodes(totHist: seq<int>, lo: nat, hi: nat) returns (y: int)
    requires lo <= hi <= |totHist|
    ensures y == TableSum(totHist, lo, hi)
  {
    y := 0;
    var j := lo;
    while j < hi
      invariant lo <= j <= hi && y == TableSum(totHist, lo, j)
    {
      y := y + totHist[j];
      j := j + 1;
    }
  }

  lemma MulMono(i: nat, n: nat, b: nat)
    requires i <= n
    ensures i * b <= n * b
  {
  }

  /**
   * toTDistribution: count each ToT code, then sum the codes of each bin.
   * x is the lower edge of the bin in seconds, y its count.
   */
  method ToTDistribution(image: Tpx3Image, binSize: nat) returns (xs: seq<real>, ys: seq<int>)
    requires image.data.Aligned() && binSize >= 1
    requires forall i :: 0 <= i < |image.data.tot| ==> image.data.tot[i] < TotCodes
    ensures |xs| == NumToTBins(binSize) && |ys| == NumToTBins(binSize)
    ensures forall i :: 0 <= i < |xs| ==> xs[i] == (i * binSize) as real * TotUnitSize
    ensures forall i :: 0 <= i < |ys| ==> ys[i] == BinCount(image.data.tot, binSize, i)
  {
    var tots := image.data.tot;
    var totHist := CountToTs(tots);
    var histSize := NumToTBins(binSize);
    xs, ys := [], [];
    for i := 0 to histSize
      invariant |xs| == i && |ys| == i
      invariant forall k :: 0 <= k < i ==> xs[k] == (k * binSize) as real * TotUnitSize
      invariant forall k :: 0 <= k < i ==> ys[k] == BinCount(tots, binSize, k)
    {
      var lo := i * binSize;
      MulMono(i, histSize - 1, binSize);
      var hi := Min((i + 1) * binSize, TotCodes);
      var yi := SumCodes(totHist, lo, hi);
      TableSumCounts(totHist, tots, lo, hi);
      xs := xs + [lo as real * TotUnitSize];
      ys := ys + [yi];
    }
  }

  /** The default bin width of toTDistribution: one ToT code per bin. */
  const DefaultToTBin: nat := 1

  /**
   * toTDistribution with its default argument: 1024 bins, bin i holding
   * exactly the hits of ToT code i, and every hit in some bin.
   */
  method DefaultToTDistribution(image: Tpx3Image) returns (xs: seq<real>, ys: seq<int>)
    requires image.data.Aligned()
    requires forall i :: 0 <= i < |image.data.tot| ==> image.data.tot[i] < TotCodes
    ensures |xs| == TotCodes && |ys| == TotCodes
    ensures forall i :: 0 <= i < TotCodes ==> xs[i] == i as real * TotUnitSize
    ensures forall i :: 0 <= i < TotCodes ==> ys[i] == TotsIn(image.data.tot, i, i + 1)
    ensures Sum(ys) == |image.data.tot|
  {
    xs, ys := ToTDistribution(image, DefaultToTBin);
    forall i | 0 <= i < TotCodes
      ensures xs[i] == i as real * TotUnitSize && ys[i] == TotsIn(image.data.tot, i, i + 1)
    {
      assert i * DefaultToTBin == i;
      assert Min((i + 1) * DefaultToTBin, TotCodes) == i + 1;
    }
    ToTDistributionTotal(image.data.tot, DefaultToTBin, ys);
  }

  /** The bins together count every hit: the y values sum to the packet count. */
  lemma ToTDistributionTotal(tots: seq<U16>, binSize: nat, ys: seq<int>)
    requires binSize >= 1 && forall i :: 0 <= i < |tots| ==> tots[i] < TotCodes
    requires |ys| == NumToTBins(binSize) && forall i :: 0 <= i < |ys| ==> ys[i] == BinCount(tots, binSize, i)
    ensures Sum(ys) == |tots|
  {
    BinsPrefix(tots, binSize, ys, |ys|);
    assert ys[..|ys|] == ys;
    assert Min(|ys| * binSize, TotCodes) == TotCodes;
    TotsInAll(tots);
  }

  lemma {:induction false} BinsPrefix(tots: seq<U16>, binSize: nat, ys: seq<int>, m: nat)
    requires binSize >= 1 && m <= |ys| && forall i :: 0 <= i < |ys| ==> ys[i] == BinCount(tots, binSize, i)
    ensures Sum(ys[..m]) == TotsIn(tots, 0, Min(m * binSize, TotCodes))
  {
    if m > 0 {
      BinsPrefix(tots, binSize, ys, m - 1);
      assert ys[..m][..m - 1] == ys[..m - 1];
      var a := (m - 1) * binSize;
      assert m * binSize == a + binSize;
      assert ys[m - 1] == TotsIn(tots, a, Min(a + binSize, TotCodes));
      assert Sum(ys[..m]) == Sum(ys[..m - 1]) + ys[m - 1];
      if a <= TotCodes {
        TotsInSplit(tots, 0, a, Min(a + binSize, TotCodes));
        assert Sum(ys[..m - 1]) == TotsIn(tots, 0, a);
      } else {
        TotsInEmpty(tots, a, Min(a + binSize, TotCodes));
        assert Sum(ys[..m - 1]) == TotsIn(tots, 0, TotCodes);
      }
    } else {
      TotsInEmpty(tots, 0, 0);
    }
  }

  lemma {:induction false} TotsInEmpty(tots: seq<U16>, lo: int, hi: int)
    requires hi <= lo
    ensures TotsIn(tots, lo, hi) == 0
  {
    if tots != [] {
      TotsInEmpty(tots[..|tots| - 1], lo, hi);
    }
  }

  /* ---------------- startStopHistogram ---------------- */

  /** static_cast to an integer: truncation toward zero. */
  function Trunc(r: real): int {
    if r >= 0.0 then r.Floor else -((-r).Floor)
  }

  /**
   * The bin of the interval between centroids ix and ix + 1, in cluster
   * order: the time difference plus half a tick, divided by the bin width
   * and truncated.
   */
  function StartStopBin(cs: seq<Centroid>, ix: nat, binSize: real): int
    requires ix + 1 < |cs| && binSize > 0.0
  {
    Trunc(((cs[ix + 1].toa - cs[ix].toa) as real * MinTick + MinTick / 2.0) / binSize)
  }

  /** The number of the first k intervals that fall in bin b. */
  function IntervalsIn(cs: seq<Centroid>, k: nat, binSize: real, b: int): nat
    requires k < |cs| && binSize > 0.0
  {
    if k == 0 then 0
    else IntervalsIn(cs, k - 1, binSize, b) + (if StartStopBin(cs, k - 1, binSize) == b then 1 else 0)
  }

  /** The number of the first k intervals whose bin is one of 0 .. numBins - 1. */
  function IntervalsKept(cs: seq<Centroid>, k: nat, binSize: real, numBins: nat): nat
    requires k < |cs| && binSize > 0.0
  {
    if k == 0 then 0
    else IntervalsKept(cs, k - 1, binSize, numBins) + (if 0 <= StartStopBin(cs, k - 1, binSize) < numBins then 1 else 0)
  }

  datatype Histogram = Histogram(xs: seq<real>, ys: seq<int>)

  /**
   * startStopHistogram: histogram the intervals between consecutive
   * centroids (in cluster order), dropping those beyond the last bin, then
   * double bin 0.  Fewer than two clusters is an error.
   */
  /** The start-stop loop: bin b counts the intervals up to the last centroid that fall in it. */
  method CountIntervals(cs: seq<Centroid>, binSize: real, numBins: nat) returns (binValues: seq<int>)
    requires binSize > 0.0 && |cs| >= 1
    ensures |binValues| == numBins
    ensures forall b :: 0 <= b < numBins ==> binValues[b] == IntervalsIn(cs, |cs| - 1, binSize, b)
    ensures Sum(binValues) == IntervalsKept(cs, |cs| - 1, binSize, numBins)
  {
    binValues := seq(numBins, _ => 0);
    SumZeros(numBins);
    for ix := 0 to |cs| - 1
      invariant |binValues| == numBins
      invariant forall b :: 0 <= b < numBins ==> binValues[b] == IntervalsIn(cs, ix, binSize, b)
      invariant Sum(binValues) == IntervalsKept(cs, ix, binSize, numBins)
    {
      var binIx := StartStopBin(cs, ix, binSize);
      if 0 <= binIx < numBins {
        SumUpdate(binValues, binIx, 1);
        binValues := binValues[binIx := binValues[binIx] + 1];
      }
    }
  }

  /** The left edges of numBins bins of width binSize. */
  method BinStarts(binSize: real, numBins: nat) returns (xs: seq<real>)
    ensures |xs| == numBins && forall k :: 0 <= k < numBins ==> xs[k] == k as real * binSize
  {
    xs := [];
    for i := 0 to numBins
      invariant |xs| == i && forall k :: 0 <= k < i ==> xs[k] == k as real * binSize
    {
      xs := xs + [i as real * binSize];
    }
  }

  method StartStopHistogram(image: Tpx3Image, binSize: real, numBins: nat) returns (r: Result<Histogram, string>)
    requires binSize > 0.0 && numBins >= 1
    requires image.clusters.numClusters == |image.centroids|
    ensures r.Err? <==> |image.centroids| < 2
    ensures r.Ok? ==> |r.value.xs| == numBins && |r.value.ys| == numBins
    ensures r.Ok? ==> forall i :: 0 <= i < numBins ==> r.value.xs[i] == i as real * binSize
    ensures r.Ok? ==> forall b :: 0 <= b < numBins ==>
      r.value.ys[b] == (if b == 0 then 2 else 1) * IntervalsIn(image.centroids, |image.centroids| - 1, binSize, b)
    ensures r.Ok? ==> (Sum(r.value.ys)
      == IntervalsKept(image.centroids, |image.centroids| - 1, binSize, numBins)
         + IntervalsIn(image.centroids, |image.centroids| - 1, binSize, 0))
  {
    var cs := image.centroids;
    var numClusters := image.NumClusters();
    if numClusters < 2 {
      return Err("Need at least two clusters to create a start-stop histogram.");
    }
    var binValues := CountIntervals(cs, binSize, numBins);
    var zeroCount := binValues[0];
    SumUpdate(binValues, 0, zeroCount);
    binValues := binValues[0 := binValues[0] * 2];
    var xs := BinStarts(binSize, numBins);
    return Ok(Histogram(xs, binValues));
  }

  /** The default bin width and bin count of startStopHistogram: one clock tick, 128 bins. */
  const DefaultStartStopBin: real := MinTick
  const DefaultStartStopBins: nat := 128

  /**
   * With the default bin width an interval of d >= 0 ticks lands in bin d
   * (half a tick is added before truncation); a negative interval d lands
   * in bin d + 1, since truncation rounds toward zero.
   */
  lemma DefaultBinIsTicks(cs: seq<Centroid>, ix: nat)
    requires ix + 1 < |cs|
    ensures var d := cs[ix + 1].toa - cs[ix].toa;
      StartStopBin(cs, ix, DefaultStartStopBin) == if d >= 0 then d else d + 1
  {
    var d := cs[ix + 1].toa - cs[ix].toa;
    var x := (d as real * MinTick + MinTick / 2.0) / MinTick;
    assert x == d as real + 0.5;
    if d >= 0 {
      assert x.Floor == d;
    } else {
      assert (-x).Floor == -d - 1;
    }
  }

  /**
   * startStopHistogram with its default arguments: 128 bins one tick wide,
   * bin b > 0 counting the intervals of exactly b ticks.
   */
  method DefaultStartStopHistogram(image: Tpx3Image) returns (r: Result<Histogram, string>)
    requires image.clusters.numClusters == |image.centroids|
    ensures r.Err? <==> |image.centroids| < 2
    ensures r.Ok? ==> |r.value.xs| == DefaultStartStopBins && |r.value.ys| == DefaultStartStopBins
    ensures r.Ok? ==> forall i :: 0 <= i < DefaultStartStopBins ==> r.value.xs[i] == i as real * MinTick
    ensures r.Ok? ==> forall b :: 0 <= b < DefaultStartStopBins ==>
      r.value.ys[b] == (if b == 0 then 2 else 1) * IntervalsIn(image.centroids, |image.centroids| - 1, DefaultStartStopBin, b)
  {
    r := StartStopHistogram(image, DefaultStartStopBin, DefaultStartStopBins);
  }
}
