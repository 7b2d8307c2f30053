/**
 * Constants and records shared by every stage of the Timepix3 import:
 * the sensor geometry, the import settings, the raw hit table held as three
 * parallel sequences, the cluster assignment, centroids and coincidences.
 */
module Tpx3 {

  /** Side of the square sensor, in pixels; also the width and height of every image. */
  const SensorSize: int := 256
  /** Number of 10-bit time-over-threshold codes, and so of ToT calibration entries. */
  const TotCodes: int := 1024
  /** Side of one pixel, in metres. */
  const PixelSize: real := 0.000055
  /** One tick of the combined arrival-time clock (640 MHz), in seconds. */
  const MinTick: real := 0.0000000015625
  /** One ToT count, in seconds. */
  const TotUnitSize: real := 0.000000025

  /** Bytes of the three vector headers that make up a PixelData object (64-bit layout). */
  const PixelDataObjectSize: nat := 72
  /** Bytes of one element of each parallel vector: PixelAddr, int64 and uint16. */
  const AddrElemSize: nat := 2
  const ToaElemSize: nat := 8
  const TotElemSize: nat := 2

  type U8 = i: int | 0 <= i < 256
  type U16 = i: int | 0 <= i < 65536

  /**
   * Two bands of pixel indices along one axis: the x index when vertical,
   * otherwise the y index.  A hit is kept when its index lies strictly inside
   * either band.
   */
  datatype SpatialMask = SpatialMask(vertical: bool, min1: int, max1: int, min2: int, max2: int)

  /** The per-file import settings; the ToT correction is in seconds per ToT code. */
  datatype ImportSettings = ImportSettings(
    maxNumThreads: int,
    spatialMask: SpatialMask,
    totCorrection: seq<real>,
    clusterSizeXY: real,
    clusterSizeT: real,
    minClusterSize: int,
    coincidenceWindow: real)

  datatype PixelAddr = PixelAddr(x: U8, y: U8)

  /** One decoded hit, the logical record behind one index of PixelData. */
  datatype Hit = Hit(addr: PixelAddr, toa: int, tot: U16)

  /** The raw hit table: three parallel sequences indexed by hit number. */
  datatype PixelData = PixelData(addr: seq<PixelAddr>, toa: seq<int>, tot: seq<U16>) {

    /** The invariant the source asserts: the three vectors have one entry per hit. */
    predicate Aligned() {
      |addr| == |toa| && |addr| == |tot|
    }

    /** Number of hits; the source asserts that the vectors are aligned. */
    function NumPackets(): (n: nat)
      requires Aligned()
      ensures n == |addr| && n == |toa| && n == |tot|
    {
      |addr|
    }

    function IsEmpty(): (b: bool)
      requires Aligned()
      ensures b <==> NumPackets() == 0
      ensures b <==> addr == [] && toa == [] && tot == []
    {
      NumPackets() == 0
    }

    /** Bytes held by the record: the object itself plus every vector element. */
    function MemSize(): (sz: nat)
      ensures sz >= PixelDataObjectSize
      ensures Aligned() ==> sz == PixelDataObjectSize + 12 * NumPackets()
    {
      PixelDataObjectSize + |addr| * AddrElemSize + |toa| * ToaElemSize + |tot| * TotElemSize
    }

    /** The hit at index i, read across the three vectors. */
    function At(i: nat): Hit
      requires Aligned() && i < NumPackets()
    {
      Hit(addr[i], toa[i], tot[i])
    }

    /** Appends one hit to all three vectors together. */
    function Push(h: Hit): (d: PixelData)
      requires Aligned()
      ensures d.Aligned() && d.NumPackets() == NumPackets() + 1
      ensures d.At(NumPackets()) == h
      ensures forall i :: 0 <= i < NumPackets() ==> d.At(i) == At(i)
    {
      PixelData(addr + [h.addr], toa + [h.toa], tot + [h.tot])
    }
  }

  const EmptyPixelData := PixelData([], [], [])

  /** Each hit's growth of MemSize: one address, one timestamp and one ToT. */
  lemma MemSizePush(d: PixelData, h: Hit)
    requires d.Aligned()
    ensures d.Push(h).MemSize() == d.MemSize() + AddrElemSize + ToaElemSize + TotElemSize
  {
  }

  /** One cluster id per hit; 0 means "not in a retained cluster". */
  datatype ClusterData = ClusterData(numClusters: int, clusterIds: seq<int>)

  /**
   * A cluster centroid: position in metres, and the arrival time of its
   * brightest hit in clock ticks (the source stores ticks times MinTick).
   */
  datatype Centroid = Centroid(x: real, y: real, toa: int)

  /** Centroid indices (cluster id minus one) of a coincident pair or n-fold. */
  datatype CoincidencePair = CoincidencePair(id1: nat, id2: nat)
  datatype CoincidenceNFold = CoincidenceNFold(ids: seq<nat>)

  /** The indices 0 .. n-1. */
  function Indices(n: nat): (r: set<nat>)
    ensures forall x: int :: x in r <==> 0 <= x < n
    ensures |r| == n
  {
    if n == 0 then {}
    else
      var prev := Indices(n - 1);
      assert n - 1 !in prev;
      prev + {n - 1}
  }
}
