/**
 * SetImageMaskDialog: choose the spatial mask from a reference image.
 *
 * The dialog sums the raw image along both axes and starts with the line
 * orientation whose projection has the higher peak.  Each refresh refits
 * the line pair and shows the middle rectangle only when the two widened
 * bands leave a gap.  Accepting turns the bands into an integer pixel mask.
 */
module MaskDialog {
  import opened Tpx3
  import Tpx3Images
  import LinePairs

  /** The slider counts hundredths of a sigma. */
  const SliderRes: int := 100

  /** The slider's starting position: 4 sigma. */
  const InitialSlider: int := 4 * SliderRes

  /** The largest entry of a non-empty projection. */
  function MaxEntry(s: seq<int>): (m: int)
    requires |s| > 0
    ensures (forall i :: 0 <= i < |s| ==> s[i] <= m) && m in s
  {
    if |s| == 1 then s[0]
    else var m := MaxEntry(s[..|s| - 1]); if s[|s| - 1] > m then s[|s| - 1] else m
  }

  /** Horizontal lines are chosen when the row projection peaks strictly higher; a tie chooses vertical. */
  function PrefersHorizontal(hSlice: seq<int>, vSlice: seq<int>): bool
    requires |hSlice| > 0 && |vSlice| > 0
  {
    MaxEntry(hSlice) > MaxEntry(vSlice)
  }

  predicate AboveAll(x: int, s: seq<int>) {
    forall j :: 0 <= j < |s| ==> x > s[j]
  }

  /** The choice restated: some row total beats every column total. */
  lemma PrefersHorizontalIff(hSlice: seq<int>, vSlice: seq<int>)
    requires |hSlice| > 0 && |vSlice| > 0
    ensures PrefersHorizontal(hSlice, vSlice) <==> exists i :: 0 <= i < |hSlice| && AboveAll(hSlice[i], vSlice)
  {
    var mh := MaxEntry(hSlice);
    var i :| 0 <= i < |hSlice| && hSlice[i] == mh;
    if PrefersHorizontal(hSlice, vSlice) {
      assert AboveAll(hSlice[i], vSlice);
    } else {
      var j :| 0 <= j < |vSlice| && vSlice[j] == MaxEntry(vSlice);
      forall k | 0 <= k < |hSlice|
        ensures !AboveAll(hSlice[k], vSlice)
      {
        assert hSlice[k] <= vSlice[j];
      }
    }
  }

  /** The v_slice loop: entry r sums image[r][c] over c, wrapping like an unsigned. */
  method VerticalSlice(image: seq<seq<int>>) returns (vSlice: seq<int>)
    requires Tpx3Images.IsGrid(image)
    ensures vSlice == LinePairs.ProfileOf(image, false)
  {
    vSlice := [];
    for r := 0 to SensorSize
      invariant vSlice == LinePairs.ProfileOf(image, false)[..r]
    {
      var sliceTot := LinePairs.SumLine(image, false, r);
      vSlice := vSlice + [sliceTot];
    }
  }

  /** The h_slice loop: entry c sums image[r][c] over r. */
  method HorizontalSlice(image: seq<seq<int>>) returns (hSlice: seq<int>)
    requires Tpx3Images.IsGrid(image)
    ensures hSlice == LinePairs.ProfileOf(image, true)
  {
    hSlice := [];
    for c := 0 to SensorSize
      invariant hSlice == LinePairs.ProfileOf(image, true)[..c]
    {
      var sliceTot := LinePairs.SumLine(image, true, c);
      hSlice := hSlice + [sliceTot];
    }
  }

  /** The orientation the dialog opens with for a raw image. */
  function InitialOrientation(image: seq<seq<int>>): bool
    requires Tpx3Images.IsGrid(image)
  {
    PrefersHorizontal(LinePairs.ProfileOf(image, true), LinePairs.ProfileOf(image, false))
  }

  /** The index list find sorts by profile for this image and orientation. */
  predicate RankingFor(image: seq<seq<int>>, hLines: bool, order: seq<nat>)
    requires Tpx3Images.IsGrid(image)
  {
    LinePairs.AsWrittenRanking(LinePairs.ProfileSamples(image, hLines), order)
  }

  /** The slider position as a number of sigmas. */
  function NumSigma(slider: int): real {
    slider as real / SliderRes as real
  }

  /** The middle rectangle is drawn when its top, scaled to pixels, is above its bottom. */
  function MiddleVisible(lp: LinePairs.LinePair, numSigma: real): (v: bool)
    ensures v <==> lp.RectBounds(numSigma).max1 < lp.RectBounds(numSigma).min2
  {
    var b := lp.RectBounds(numSigma);
    b.min2 / PixelSize > b.max1 / PixelSize
  }

  /** The integer mask for the bands: edges divided by the pixel pitch and truncated. */
  function MaskFor(lp: LinePairs.LinePair, numSigma: real, vertical: bool): SpatialMask {
    var b := lp.RectBounds(numSigma);
    SpatialMask(vertical,
      Tpx3Images.Trunc(b.min1 / PixelSize), Tpx3Images.Trunc(b.max1 / PixelSize),
      Tpx3Images.Trunc(b.min2 / PixelSize), Tpx3Images.Trunc(b.max2 / PixelSize))
  }

  lemma TruncBetween(r: real)
    ensures r >= 0.0 ==> Tpx3Images.Trunc(r) as real <= r < Tpx3Images.Trunc(r) as real + 1.0
    ensures r < 0.0 ==> Tpx3Images.Trunc(r) as real - 1.0 < r <= Tpx3Images.Trunc(r) as real
  {
  }

  /** A pixel strictly between two truncated edges lies strictly between the edges themselves. */
  lemma StrictlyInsideTruncated(lo: real, hi: real, i: int)
    requires Tpx3Images.Trunc(lo) < i < Tpx3Images.Trunc(hi)
    ensures lo < i as real < hi
  {
    TruncBetween(lo);
    TruncBetween(hi);
  }

  predicate StrictlyBetween(lo: int, hi: int, i: int) {
    lo < i < hi
  }

  /** Every pixel the mask keeps in a band has its position strictly inside that band's edges. */
  ghost predicate MaskWithinBands(m: SpatialMask, b: LinePairs.Bounds) {
    (forall i :: StrictlyBetween(m.min1, m.max1, i) ==> b.min1 < i as real * PixelSize < b.max1)
    && (forall i :: StrictlyBetween(m.min2, m.max2, i) ==> b.min2 < i as real * PixelSize < b.max2)
  }

  /**
   * The accepted mask never admits a pixel outside the fitted bands: a
   * pixel i with min1 < i < max1 sits strictly inside [min1, max1] once
   * scaled back to metres, and likewise for band 2.
   */
  lemma MaskInsideBands(lp: LinePairs.LinePair, numSigma: real, vertical: bool)
    ensures MaskWithinBands(MaskFor(lp, numSigma, vertical), lp.RectBounds(numSigma))
  {
    var m := MaskFor(lp, numSigma, vertical);
    var b := lp.RectBounds(numSigma);
    forall i | StrictlyBetween(m.min1, m.max1, i)
      ensures b.min1 < i as real * PixelSize < b.max1
    {
      StrictlyInsideTruncated(b.min1 / PixelSize, b.max1 / PixelSize, i);
      ScaleBack(b.min1, b.max1, i);
    }
    forall i | StrictlyBetween(m.min2, m.max2, i)
      ensures b.min2 < i as real * PixelSize < b.max2
    {
      StrictlyInsideTruncated(b.min2 / PixelSize, b.max2 / PixelSize, i);
      ScaleBack(b.min2, b.max2, i);
    }
  }

  lemma ScaleBack(lo: real, hi: real, i: int)
    requires lo / PixelSize < i as real < hi / PixelSize
    ensures lo < i as real * PixelSize < hi
  {
    assert lo == (lo / PixelSize) * PixelSize;
    assert hi == (hi / PixelSize) * PixelSize;
  }

  /** The dialog's state: the reference image's counts, the chosen orientation, the slider and the last fit. */
  class SetImageMaskDialog {
    var rawImage: seq<seq<int>>
    /** Whether the "Horizontal Lines" button is the checked one. */
    var horizontal: bool
    var sigmaSlider: int
    var lastFit: LinePairs.LinePair
    var middleRectVisible: bool

    predicate Valid()
      reads this
    {
      Tpx3Images.IsGrid(rawImage) && 1 <= sigmaSlider <= 12 * SliderRes
    }

    /**
     * Count the reference image, pick the orientation from the projections
     * and click its button, which refreshes the fit.
     */
    constructor(reference: Tpx3Images.Tpx3Image, order: seq<nat>, solve: LinePairs.Solver)
      requires var img := Tpx3Images.HitGrid(reference.data.addr);
        RankingFor(img, InitialOrientation(img), order)
      ensures Valid()
      ensures rawImage == Tpx3Images.HitGrid(reference.data.addr)
      ensures horizontal == InitialOrientation(rawImage)
      ensures sigmaSlider == InitialSlider
      ensures lastFit == LinePairs.FoundPair(rawImage, horizontal, order, solve)
      ensures middleRectVisible == MiddleVisible(lastFit, NumSigma(sigmaSlider))
    {
      var image := Tpx3Images.RawPacketImage(reference);
      rawImage := image;
      sigmaSlider := InitialSlider;
      lastFit := LinePairs.LinePair(false, -1.0, -1.0, -1.0, -1.0);
      var hSlice := HorizontalSlice(image);
      var vSlice := VerticalSlice(image);
      var hSliceMax := MaxEntry(hSlice);
      var vSliceMax := MaxEntry(vSlice);
      horizontal := hSliceMax > vSliceMax;
      new;
      UpdateSlicePlot(order, solve);
    }

    /** updateSlicePlot: refit the lines in the chosen orientation and redraw the bands. */
    method UpdateSlicePlot(order: seq<nat>, solve: LinePairs.Solver)
      requires Valid() && RankingFor(rawImage, horizontal, order)
      modifies this
      ensures Valid()
      ensures rawImage == old(rawImage) && horizontal == old(horizontal) && sigmaSlider == old(sigmaSlider)
      ensures lastFit == LinePairs.FoundPair(rawImage, horizontal, order, solve)
      ensures middleRectVisible == MiddleVisible(lastFit, NumSigma(sigmaSlider))
    {
      var lines, xs, ys := LinePairs.Find(rawImage, horizontal, order, solve);
      lastFit := lines;
      var b := lines.RectBounds(NumSigma(sigmaSlider));
      middleRectVisible := b.min2 / PixelSize > b.max1 / PixelSize;
    }

    /** acceptClicked: the mask for the last fit, masking x when the vertical button is checked. */
    method AcceptClicked() returns (mask: SpatialMask)
      requires Valid()
      ensures mask == MaskFor(lastFit, NumSigma(sigmaSlider), !horizontal)
      ensures mask.vertical == !horizontal
      ensures MaskWithinBands(mask, lastFit.RectBounds(NumSigma(sigmaSlider)))
    {
      var b := lastFit.RectBounds(NumSigma(sigmaSlider));
      var imin1 := Tpx3Images.Trunc(b.min1 / PixelSize);
      var imax1 := Tpx3Images.Trunc(b.max1 / PixelSize);
      var imin2 := Tpx3Images.Trunc(b.min2 / PixelSize);
      var imax2 := Tpx3Images.Trunc(b.max2 / PixelSize);
      mask := SpatialMask(!horizontal, imin1, imax1, imin2, imax2);
      MaskInsideBands(lastFit, NumSigma(sigmaSlider), !horizontal);
    }
  }
}
