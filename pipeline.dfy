/**
 * The import of one raw file (LoadRawFileThread::execute and finish):
 * decode, then, unless only raw packets were asked for, sort by time,
 * cluster, centroid and group coincidences.  The stages run in that order
 * and the result is handed on as the contents of one image.
 *
 * A decoding error is reported and decoding returns an empty hit table; the
 * thread is not cancelled by it, so the import goes on with no hits.  The
 * two assertions on the way (chip index 0, non-zero cluster weight) end the
 * import as a crash.
 */
module Pipeline {
  import opened Wrappers
  import opened Tpx3
  import RawDecoder
  import TimestampSort
  import Connectivity
  import Clustering
  import Centroids
  import Coincidences
  import opened Tpx3Images

  /** finish() with no arguments: an image with nothing in it. */
  const EmptyImage := Tpx3Image(EmptyPixelData, ClusterData(0, []), [], [], [])

  datatype Crash = ChipIndexAssertion | ZeroWeightAssertion(cluster: nat)

  datatype Outcome = Finished(image: Tpx3Image) | Crashed(reason: Crash)

  /** std::round: to the nearest integer, halves away from zero. */
  function RoundHalfAway(r: real): (n: int)
    ensures r >= 0.0 ==> n as real - 0.5 <= r < n as real + 0.5
    ensures r < 0.0 ==> n as real - 0.5 < r <= n as real + 0.5
  {
    if r >= 0.0 then (r + 0.5).Floor else -((-r + 0.5).Floor)
  }

  /** Rounding is odd: negating the input negates the result. */
  lemma RoundHalfAwayOdd(r: real)
    ensures RoundHalfAway(-r) == -RoundHalfAway(r)
  {
    if r == 0.0 {
      assert -r == 0.0;
    }
  }

  /** The per-code ToT correction in clock ticks: seconds divided by MinTick, rounded. */
  function CorrectionTicks(totCorrection: seq<real>): (corr: seq<int>)
    requires |totCorrection| == TotCodes
    ensures |corr| == TotCodes
    ensures forall c :: 0 <= c < TotCodes ==> corr[c] == RoundHalfAway(totCorrection[c] / MinTick)
  {
    seq(TotCodes, c requires 0 <= c < TotCodes => RoundHalfAway(totCorrection[c] / MinTick))
  }

  /** The hit table execute goes on with after decoding, or None for the chip-index assertion. */
  function DecodedOrEmpty(r: Result<PixelData, RawDecoder.DecodeError>): (d: Option<PixelData>)
    requires r.Ok? ==> r.value.Aligned()
    ensures d.Some? ==> d.value.Aligned()
  {
    match r
    case Ok(d) => Some(d)
    case Err(e) => if e == RawDecoder.ChipIndexNotZero then None else Some(EmptyPixelData)
  }

  /**
   * execute: run the stages in order and finish with their results.  The
   * centroids are put in time order with an unstable library sort; the
   * stable order is one of the orders it may produce.
   */
  method Execute(bytes: seq<bv8>, s: ImportSettings, rawOnly: bool) returns (o: Outcome)
    requires |s.totCorrection| == TotCodes
    ensures var decoded := DecodedOrEmpty(RawDecoder.DecodeFile(bytes, s.spatialMask, CorrectionTicks(s.totCorrection)));
      (decoded.None? <==> o == Crashed(ChipIndexAssertion))
      && (decoded.Some? && rawOnly ==> o == Finished(Tpx3Image(decoded.value, ClusterData(0, []), [], [], [])))
      && (decoded.Some? && !rawOnly && decoded.value.IsEmpty() ==> o == Finished(EmptyImage))
      && (decoded.Some? && !rawOnly && !decoded.value.IsEmpty() ==> ImportsAs(decoded.value, s, o))
    ensures o.Finished? ==> o.image.data.Aligned()
  {
    var corr := CorrectionTicks(s.totCorrection);
    var decoded := RawDecoder.ParseRawData(bytes, s.spatialMask, corr);
    var data: PixelData;
    match decoded {
      case Ok(d) =>
        data := d;
      case Err(e) =>
        if e == RawDecoder.ChipIndexNotZero {
          return Crashed(ChipIndexAssertion);
        }
        data := EmptyPixelData;
    }
    if rawOnly {
      return Finished(Tpx3Image(data, ClusterData(0, []), [], [], []));
    }
    if data.IsEmpty() {
      return Finished(EmptyImage);
    }
    var sorted, indices := TimestampSort.SortTimestamps(data);
    var w := Connectivity.HalfWindows(s);
    var clusters := Clustering.Cluster(sorted, w, s.minClusterSize);
    var centroids := Centroids.ComputeCentroids(sorted, clusters.clusterIds, clusters.numClusters);
    if centroids.Err? {
      o := Crashed(ZeroWeightAssertion(centroids.error));
      StagesReached(data, s, sorted, indices, clusters, o);
      return;
    }
    var cs := centroids.value;
    var order := TimestampSort.StableOrder(Coincidences.Times(cs));
    TimestampSort.StableOrderCorrect(Coincidences.Times(cs));
    var co := Coincidences.FindCoincidences(cs, order, s.coincidenceWindow);
    o := Finished(Tpx3Image(sorted, clusters, cs, co.pairs, co.nfolds));
    StagesReached(data, s, sorted, indices, clusters, o);
  }

  /** The witnesses Execute computed show that its outcome is the import's. */
  lemma StagesReached(data: PixelData, s: ImportSettings, sorted: PixelData, indices: seq<nat>, c: ClusterData, o: Outcome)
    requires SortedFrom(data, sorted, indices)
    requires Clustering.IsClustering(sorted, Connectivity.HalfWindows(s), s.minClusterSize, c)
    requires o == StagesOutcome(sorted, c, s.coincidenceWindow)
    ensures ImportsAs(data, s, o)
  {
  }

  /** sorted is data stably sorted by time through the permutation indices. */
  predicate SortedFrom(data: PixelData, sorted: PixelData, indices: seq<nat>) {
    data.Aligned() && sorted.Aligned()
    && TimestampSort.IsStableSortingPermutation(data.toa, indices)
    && |sorted.addr| == |data.addr|
    && forall k :: 0 <= k < |indices| ==> sorted.At(k) == data.At(indices[k])
  }

  /** The image of a processed import: every stage's contract, chained. */
  ghost predicate ProcessedFrom(data: PixelData, s: ImportSettings, img: Tpx3Image) {
    var w := Connectivity.HalfWindows(s);
    (exists indices :: SortedFrom(data, img.data, indices))
    && Clustering.IsClustering(img.data, w, s.minClusterSize, img.clusters)
    && Centroids.CentroidsUpTo(img.data, img.clusters.clusterIds, img.clusters.numClusters) == Ok(img.centroids)
    && Coincidences.ValidOrder(img.centroids, TimestampSort.StableOrder(Coincidences.Times(img.centroids)))
    && var order := TimestampSort.StableOrder(Coincidences.Times(img.centroids));
       Coincidences.SpansFit(order, Coincidences.SpansFrom(img.centroids, order, s.coincidenceWindow, 0))
       && Coincidences.Classify(order, Coincidences.SpansFrom(img.centroids, order, s.coincidenceWindow, 0))
          == Coincidences.Coincidences(img.pairs, img.nfolds)
  }

  /**
   * What centroid and findCoincidences make of the sorted, clustered hits:
   * the assertion on the first cluster whose 16-bit weight is 0, otherwise
   * the image of the centroids and their coincidences.
   */
  function StagesOutcome(sorted: PixelData, c: ClusterData, window: real): Outcome
    requires sorted.Aligned() && |c.clusterIds| == |sorted.addr| && c.numClusters >= 0
  {
    match Centroids.CentroidsUpTo(sorted, c.clusterIds, c.numClusters)
    case Err(k) => Crashed(ZeroWeightAssertion(k))
    case Ok(cs) =>
      TimestampSort.StableOrderCorrect(Coincidences.Times(cs));
      var co := Coincidences.Found(cs, TimestampSort.StableOrder(Coincidences.Times(cs)), window, 0);
      Finished(Tpx3Image(sorted, c, cs, co.pairs, co.nfolds))
  }

  /** o is what the stages give for some stable sort of data and some labelling meeting cluster's contract. */
  ghost predicate ImportsAs(data: PixelData, s: ImportSettings, o: Outcome) {
    exists sorted, indices, c ::
      SortedFrom(data, sorted, indices)
      && Clustering.IsClustering(sorted, Connectivity.HalfWindows(s), s.minClusterSize, c)
      && o == StagesOutcome(sorted, c, s.coincidenceWindow)
  }

  /** The stable sort of the hits is unique, and so is the sorted table. */
  lemma SortedUnique(data: PixelData, sorted1: PixelData, indices1: seq<nat>, sorted2: PixelData, indices2: seq<nat>)
    requires SortedFrom(data, sorted1, indices1) && SortedFrom(data, sorted2, indices2)
    ensures indices1 == indices2 && sorted1 == sorted2
  {
    TimestampSort.AnyStableSortIsStableOrder(data.toa, indices1);
    TimestampSort.AnyStableSortIsStableOrder(data.toa, indices2);
    forall k | 0 <= k < |sorted1.addr|
      ensures sorted1.addr[k] == sorted2.addr[k] && sorted1.toa[k] == sorted2.toa[k] && sorted1.tot[k] == sorted2.tot[k]
    {
      assert sorted1.At(k) == sorted2.At(k);
    }
  }

  /**
   * The outcome of an import is determined by its input: the sorted table and
   * the clustering are unique, and the later stages are functions of them.
   */
  lemma ImportDetermined(data: PixelData, s: ImportSettings, o1: Outcome, o2: Outcome)
    requires ImportsAs(data, s, o1) && ImportsAs(data, s, o2)
    ensures o1 == o2
  {
    var w := Connectivity.HalfWindows(s);
    var sorted1, indices1, c1 :| SortedFrom(data, sorted1, indices1)
      && Clustering.IsClustering(sorted1, w, s.minClusterSize, c1) && o1 == StagesOutcome(sorted1, c1, s.coincidenceWindow);
    var sorted2, indices2, c2 :| SortedFrom(data, sorted2, indices2)
      && Clustering.IsClustering(sorted2, w, s.minClusterSize, c2) && o2 == StagesOutcome(sorted2, c2, s.coincidenceWindow);
    SortedUnique(data, sorted1, indices1, sorted2, indices2);
    Clustering.ClusteringUnique(sorted1, w, s.minClusterSize, c1, c2);
  }

  /**
   * For the sorted table and the clustering, whichever witnesses are taken:
   * the import crashes exactly when some cluster's 16-bit weight is 0, on
   * the first such cluster, and otherwise finishes with every stage's
   * contract met.
   */
  lemma ImportCrashesIff(data: PixelData, s: ImportSettings, o: Outcome, sorted: PixelData, indices: seq<nat>, c: ClusterData)
    requires ImportsAs(data, s, o)
    requires SortedFrom(data, sorted, indices)
    requires Clustering.IsClustering(sorted, Connectivity.HalfWindows(s), s.minClusterSize, c)
    ensures o.Crashed? <==> Centroids.CentroidsUpTo(sorted, c.clusterIds, c.numClusters).Err?
    ensures o.Crashed? ==> o == Crashed(ZeroWeightAssertion(Centroids.CentroidsUpTo(sorted, c.clusterIds, c.numClusters).error))
    ensures o.Finished? ==> ProcessedFrom(data, s, o.image)
  {
    ImportDetermined(data, s, o, StagesOutcome(sorted, c, s.coincidenceWindow));
    if o.Finished? {
      var cs := Centroids.CentroidsUpTo(sorted, c.clusterIds, c.numClusters).value;
      Coincidences.SpansFromFit(cs, TimestampSort.StableOrder(Coincidences.Times(cs)), s.coincidenceWindow, 0);
    }
  }
}
