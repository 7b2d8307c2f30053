/**
 * LinePair: two parallel lines fitted to a raw image, the bands they
 * define, and how a point is assigned to one of them.
 *
 * find sums the image along rows (horizontal lines) or columns (vertical
 * lines) into a 256-entry profile, guesses the two peaks from the profile
 * ranked by height, and hands that guess to a least-squares fit.  The fit
 * itself is a foreign numerical routine and is a parameter here.
 */
module LinePairs {
  import opened Wrappers
  import opened Tpx3
  import Tpx3Images

  /** unsigned arithmetic wraps modulo 2^32. */
  const U32Modulus: int := 0x1_0000_0000

  /** The four band edges: band 1 is [min1, max1], band 2 is [min2, max2]. */
  datatype Bounds = Bounds(min1: real, max1: real, min2: real, max2: real)

  function RealMin(a: real, b: real): real {
    if a <= b then a else b
  }

  function RealMax(a: real, b: real): real {
    if a >= b then a else b
  }

  function Abs(r: real): real {
    if r >= 0.0 then r else -r
  }

  /**
   * Two lines: positions and widths in metres.  find stores its h_lines
   * flag in the vertical field, so a "vertical" pair compares y positions.
   */
  datatype LinePair = LinePair(vertical: bool, line1Pos: real, line2Pos: real, line1Sigma: real, line2Sigma: real)
  {
    /** The same lines, numbered the other way round. */
    function Swapped(): LinePair {
      LinePair(vertical, line2Pos, line1Pos, line2Sigma, line1Sigma)
    }

    /** The lower and upper edge of the band of numSigma widths around line i. */
    function Low(i: int, numSigma: real): real {
      if i == 1 then line1Pos - numSigma * line1Sigma else line2Pos - numSigma * line2Sigma
    }

    function High(i: int, numSigma: real): real {
      if i == 1 then line1Pos + numSigma * line1Sigma else line2Pos + numSigma * line2Sigma
    }

    /**
     * getRectBounds: min1 and min2 are the smaller and larger lower edges,
     * max1 and max2 the smaller and larger upper edges.
     */
    function RectBounds(numSigma: real): (b: Bounds)
      ensures b.min1 <= Low(1, numSigma) && b.min1 <= Low(2, numSigma)
      ensures b.min1 == Low(1, numSigma) || b.min1 == Low(2, numSigma)
      ensures b.min2 >= Low(1, numSigma) && b.min2 >= Low(2, numSigma)
      ensures b.min2 == Low(1, numSigma) || b.min2 == Low(2, numSigma)
      ensures b.max1 <= High(1, numSigma) && b.max1 <= High(2, numSigma)
      ensures b.max1 == High(1, numSigma) || b.max1 == High(2, numSigma)
      ensures b.max2 >= High(1, numSigma) && b.max2 >= High(2, numSigma)
      ensures b.max2 == High(1, numSigma) || b.max2 == High(2, numSigma)
      ensures b.min1 <= b.min2 && b.max1 <= b.max2
    {
      var lo1, lo2 := Low(1, numSigma), Low(2, numSigma);
      var hi1, hi2 := High(1, numSigma), High(2, numSigma);
      Bounds(RealMin(lo1, lo2), RealMin(hi1, hi2), RealMax(lo1, lo2), RealMax(hi1, hi2))
    }

    /** The lower and the upper of the two line positions. */
    function Lower(): real {
      RealMin(line1Pos, line2Pos)
    }

    function Upper(): real {
      RealMax(line1Pos, line2Pos)
    }

    /**
     * closestLine: 1 when the point is at least as near the lower line as
     * the upper one, else 2.  Only y counts for a vertical pair, only x
     * otherwise, and the widths play no part.
     */
    function ClosestLine(x: real, y: real): (n: int)
      ensures n == 1 || n == 2
    {
      var c := if vertical then y else x;
      var mid := (Lower() + Upper()) / 2.0;
      if c <= mid then 1 else 2
    }
  }

  /** With non-negative widths each band is an interval: its lower edge is not above its upper edge. */
  lemma RectBoundsOrdered(lp: LinePair, numSigma: real)
    requires numSigma >= 0.0 && lp.line1Sigma >= 0.0 && lp.line2Sigma >= 0.0
    ensures lp.RectBounds(numSigma).min1 <= lp.RectBounds(numSigma).max1
    ensures lp.RectBounds(numSigma).min2 <= lp.RectBounds(numSigma).max2
  {
    assert numSigma * lp.line1Sigma >= 0.0 && numSigma * lp.line2Sigma >= 0.0;
  }

  /**
   * closestLine picks the nearer line, and a point midway goes to the lower
   * one.  When both lines are at the same place the point goes to line 1
   * only if it is not above them.
   */
  lemma ClosestLineIsNearest(lp: LinePair, x: real, y: real)
    ensures var c := if lp.vertical then y else x;
      lp.Lower() < lp.Upper() ==> (lp.ClosestLine(x, y) == 1 <==> Abs(c - lp.Lower()) <= Abs(c - lp.Upper()))
    ensures var c := if lp.vertical then y else x;
      lp.Lower() == lp.Upper() ==> (lp.ClosestLine(x, y) == 1 <==> c <= lp.Lower())
  {
    var c := if lp.vertical then y else x;
    assert lp.Lower() <= lp.Upper();
    if c <= lp.Lower() {
    } else if c <= lp.Upper() {
      assert Abs(c - lp.Lower()) == c - lp.Lower();
      assert Abs(c - lp.Upper()) == lp.Upper() - c;
    } else {
      assert lp.ClosestLine(x, y) == 2;
    }
  }

  /** Renumbering the lines leaves the bands as they are. */
  lemma RectBoundsSwap(lp: LinePair, numSigma: real)
    ensures lp.Swapped().RectBounds(numSigma) == lp.RectBounds(numSigma)
  {
    var sw := lp.Swapped();
    assert sw.Low(1, numSigma) == lp.Low(2, numSigma) && sw.Low(2, numSigma) == lp.Low(1, numSigma);
    assert sw.High(1, numSigma) == lp.High(2, numSigma) && sw.High(2, numSigma) == lp.High(1, numSigma);
  }

  /** Renumbering the lines, or changing their widths, does not change the answer. */
  lemma ClosestLineSwapAndSigma(lp: LinePair, s1: real, s2: real, x: real, y: real)
    ensures lp.Swapped().ClosestLine(x, y) == lp.ClosestLine(x, y)
    ensures LinePair(lp.vertical, lp.line1Pos, lp.line2Pos, s1, s2).ClosestLine(x, y) == lp.ClosestLine(x, y)
  {
  }

  /**
   * The widened bands overlap exactly when min2 <= max1: a point lies in
   * both bands if and only if the middle gap is empty.
   */
  predicate InBand(lp: LinePair, i: int, numSigma: real, p: real) {
    lp.Low(i, numSigma) <= p <= lp.High(i, numSigma)
  }

  lemma BandsDisjointIffGap(lp: LinePair, numSigma: real)
    requires numSigma >= 0.0 && lp.line1Sigma >= 0.0 && lp.line2Sigma >= 0.0
    ensures (forall p :: !(InBand(lp, 1, numSigma, p) && InBand(lp, 2, numSigma, p)))
        <==> lp.RectBounds(numSigma).min2 > lp.RectBounds(numSigma).max1
  {
    var b := lp.RectBounds(numSigma);
    RectBoundsOrdered(lp, numSigma);
    if b.min2 <= b.max1 {
      assert InBand(lp, 1, numSigma, b.min2) && InBand(lp, 2, numSigma, b.min2);
    }
  }

  /* ---------------- the profile built by find ---------------- */

  /** Entry jx of profile line ix: row ix for horizontal lines, column ix otherwise. */
  function ProfileCell(image: seq<seq<int>>, hLines: bool, ix: int, jx: int): int
    requires Tpx3Images.IsGrid(image) && 0 <= ix < SensorSize && 0 <= jx < SensorSize
  {
    if hLines then image[jx][ix] else image[ix][jx]
  }

  /** The first k entries of profile line ix, summed without wrap-around. */
  function LineSum(image: seq<seq<int>>, hLines: bool, ix: int, k: int): int
    requires Tpx3Images.IsGrid(image) && 0 <= ix < SensorSize && 0 <= k <= SensorSize
  {
    if k == 0 then 0 else LineSum(image, hLines, ix, k - 1) + ProfileCell(image, hLines, ix, k - 1)
  }

  /** The profile: each line summed in 32-bit unsigned arithmetic. */
  function ProfileOf(image: seq<seq<int>>, hLines: bool): (p: seq<int>)
    requires Tpx3Images.IsGrid(image)
    ensures |p| == SensorSize
    ensures forall ix :: 0 <= ix < SensorSize ==> 0 <= p[ix] < U32Modulus
  {
    seq(SensorSize, ix requires 0 <= ix < SensorSize => LineSum(image, hLines, ix, SensorSize) % U32Modulus)
  }

  lemma ModAddStep(a: int, c: int)
    ensures (a % U32Modulus + c) % U32Modulus == (a + c) % U32Modulus
  {
    var q := a / U32Modulus;
    assert a == q * U32Modulus + a % U32Modulus;
    assert a + c == (a % U32Modulus + c) + q * U32Modulus;
  }

  /** One profile line: the sum of its 256 entries, wrapping like an unsigned. */
  method SumLine(image: seq<seq<int>>, hLines: bool, ix: int) returns (sliceTot: int)
    requires Tpx3Images.IsGrid(image) && 0 <= ix < SensorSize
    ensures sliceTot == LineSum(image, hLines, ix, SensorSize) % U32Modulus
  {
    sliceTot := 0;
    for jx := 0 to SensorSize
      invariant sliceTot == LineSum(image, hLines, ix, jx) % U32Modulus
    {
      var xIx, yIx := if hLines then jx else ix, if hLines then ix else jx;
      ModAddStep(LineSum(image, hLines, ix, jx), image[xIx][yIx]);
      sliceTot := (sliceTot + image[xIx][yIx]) % U32Modulus;
    }
  }

  /** The profile loop of find. */
  method BuildProfile(image: seq<seq<int>>, hLines: bool) returns (slice: seq<int>)
    requires Tpx3Images.IsGrid(image)
    ensures slice == ProfileOf(image, hLines)
  {
    slice := [];
    for ix := 0 to SensorSize
      invariant slice == ProfileOf(image, hLines)[..ix]
    {
      var sliceTot := SumLine(image, hLines, ix);
      slice := slice + [sliceTot];
    }
  }

  function Transpose(g: seq<seq<int>>): (t: seq<seq<int>>)
    requires Tpx3Images.IsGrid(g)
    ensures Tpx3Images.IsGrid(t)
    ensures forall x, y :: 0 <= x < SensorSize && 0 <= y < SensorSize ==> t[x][y] == g[y][x]
  {
    seq(SensorSize, x requires 0 <= x < SensorSize => seq(SensorSize, y requires 0 <= y < SensorSize => g[y][x]))
  }

  lemma {:induction false} LineSumTranspose(g: seq<seq<int>>, ix: int, k: int)
    requires Tpx3Images.IsGrid(g) && 0 <= ix < SensorSize && 0 <= k <= SensorSize
    ensures LineSum(g, true, ix, k) == LineSum(Transpose(g), false, ix, k)
  {
    if k > 0 {
      LineSumTranspose(g, ix, k - 1);
    }
  }

  /** The row profile of an image is the column profile of its transpose. */
  lemma ProfileTranspose(g: seq<seq<int>>)
    requires Tpx3Images.IsGrid(g)
    ensures ProfileOf(g, true) == ProfileOf(Transpose(g), false)
  {
    forall ix | 0 <= ix < SensorSize
      ensures ProfileOf(g, true)[ix] == ProfileOf(Transpose(g), false)[ix]
    {
      LineSumTranspose(g, ix, SensorSize);
    }
  }

  /* ---------------- the initial guess of fit_data ---------------- */

  /** 0, 1, ..., n - 1. */
  function Range(n: nat): (r: seq<nat>)
    ensures |r| == n && forall i :: 0 <= i < n ==> r[i] == i
  {
    seq(n, i requires 0 <= i => i)
  }

  /** order lists profile positions from the highest value to the lowest. */
  predicate SortedDescending(ys: seq<real>, order: seq<nat>) {
    (forall i :: 0 <= i < |order| ==> order[i] < |ys|)
    && forall i, j :: 0 <= i < j < |order| ==> ys[order[i]] >= ys[order[j]]
  }

  /**
   * The run around the highest position grows while the next-ranked
   * position extends it by one on the left or on the right.  The answer is
   * the rank at which it stops growing, or None if it grows through rank
   * n - 1.
   */
  function RunBreak(order: seq<nat>, n: nat, ix: nat, left: int, right: int): (r: Option<nat>)
    requires n <= |order| && ix <= n
    ensures r.Some? ==> ix <= r.value < n
    decreases n - ix
  {
    if ix == n then None
    else if order[ix] == left - 1 then RunBreak(order, n, ix + 1, left - 1, right)
    else if order[ix] == right + 1 then RunBreak(order, n, ix + 1, left, right + 1)
    else Some(ix)
  }

  /** The smallest and largest of the first k ranked positions. */
  function RunLow(order: seq<nat>, k: nat): int
    requires 1 <= k <= |order|
  {
    if k == 1 then order[0] else var l := RunLow(order, k - 1); if order[k - 1] < l then order[k - 1] else l
  }

  function RunHigh(order: seq<nat>, k: nat): int
    requires 1 <= k <= |order|
  {
    if k == 1 then order[0] else var h := RunHigh(order, k - 1); if order[k - 1] > h then order[k - 1] else h
  }

  /** Rank i extends the run of the ranks before it by one position. */
  predicate Extends(order: seq<nat>, i: nat)
    requires 1 <= i < |order|
  {
    order[i] == RunLow(order, i) - 1 || order[i] == RunHigh(order, i) + 1
  }

  predicate AllExtend(order: seq<nat>, lo: nat, hi: nat)
    requires hi <= |order|
  {
    forall i :: 1 <= lo <= i < hi ==> Extends(order, i)
  }

  /** The run rule restated: it stops at the first rank below n that does not extend the run. */
  lemma {:induction false} RunBreakIsFirstGap(order: seq<nat>, n: nat, ix: nat)
    requires 1 <= ix <= n <= |order| && AllExtend(order, 1, ix)
    ensures var r := RunBreak(order, n, ix, RunLow(order, ix), RunHigh(order, ix));
      (r.None? <==> AllExtend(order, 1, n))
      && (r.Some? ==> ix <= r.value < n && AllExtend(order, 1, r.value) && !Extends(order, r.value))
    decreases n - ix
  {
    if ix < n {
      var l, h := RunLow(order, ix), RunHigh(order, ix);
      assert RunLow(order, ix) <= RunHigh(order, ix) by { RunLowHigh(order, ix); }
      if order[ix] == l - 1 || order[ix] == h + 1 {
        assert AllExtend(order, 1, ix + 1);
        RunBreakIsFirstGap(order, n, ix + 1);
      } else {
        assert !Extends(order, ix);
      }
    }
  }

  lemma {:induction false} RunLowHigh(order: seq<nat>, k: nat)
    requires 1 <= k <= |order|
    ensures RunLow(order, k) <= RunHigh(order, k)
  {
    if k > 1 {
      RunLowHigh(order, k - 1);
    }
  }

  /** The positions m1 and m2 guessed for the two peaks. */
  function GuessFromRun(order: seq<nat>, n: nat): (m: (real, real))
    requires 1 <= n <= |order|
  {
    var m2 := match RunBreak(order, n, 1, order[0], order[0])
      case Some(p) => order[p] as real
      case None => n as real / 2.0;
    (order[0] as real, m2)
  }

  /** The run-growing loop of fit_data over ranks 1 .. n - 1. */
  method InitialGuess(order: seq<nat>, n: nat) returns (fitM1: real, fitM2: real)
    requires 1 <= n <= |order|
    ensures (fitM1, fitM2) == GuessFromRun(order, n)
  {
    fitM1 := order[0] as real;
    var fitLeft1, fitRight1 := order[0] as int, order[0] as int;
    fitM2 := -1.0;
    var ix := 1;
    while ix < n
      invariant 1 <= ix <= n
      invariant RunBreak(order, n, 1, order[0], order[0]) == RunBreak(order, n, ix, fitLeft1, fitRight1)
    {
      var nextHighest := order[ix];
      if nextHighest == fitLeft1 - 1 {
        fitLeft1 := fitLeft1 - 1;
      } else if nextHighest == fitRight1 + 1 {
        fitRight1 := fitRight1 + 1;
      } else {
        fitM2 := order[ix] as real;
        return;
      }
      ix := ix + 1;
    }
    fitM2 := n as real / 2.0;
  }

  /** Starting parameters of the two-Gaussian fit: heights, centres and widths. */
  datatype FitParams = FitParams(amp1: real, mean1: real, sigma1: real, amp2: real, mean2: real, sigma2: real)

  /** The largest profile value. */
  function MaxOf(ys: seq<real>): (m: real)
    requires |ys| > 0
    ensures (forall i :: 0 <= i < |ys| ==> ys[i] <= m) && m in ys
  {
    if |ys| == 1 then ys[0] else RealMax(MaxOf(ys[..|ys| - 1]), ys[|ys| - 1])
  }

  /** std::max_element on the profile. */
  method MaxElement(ys: seq<real>) returns (m: real)
    requires |ys| > 0
    ensures m == MaxOf(ys)
  {
    m := ys[0];
    for i := 1 to |ys|
      invariant m == MaxOf(ys[..i])
    {
      assert ys[..i + 1][..i] == ys[..i];
      m := RealMax(m, ys[i]);
    }
    assert ys[..|ys|] == ys;
  }

  function InitialParams(ys: seq<real>, order: seq<nat>): FitParams
    requires 1 <= |ys| <= |order|
  {
    var (m1, m2) := GuessFromRun(order, |ys|);
    FitParams(MaxOf(ys), m1, 3.0, MaxOf(ys), m2, 3.0)
  }

  /** The least-squares solver, started from a guess. */
  type Solver = (seq<real>, seq<real>, FitParams) -> FitParams

  /**
   * The ranking fit_data sorts, as written: the n zeros of the sized
   * constructor and 0 .. n - 1 pushed after them, highest profile first.
   */
  predicate AsWrittenRanking(ys: seq<real>, order: seq<nat>) {
    |order| == 2 * |ys| && SortedDescending(ys, order) && multiset(order) == multiset(AsWrittenIndices(|ys|))
  }

  /** The ranking fit_data evidently intends: each position 0 .. n - 1 once, highest profile first. */
  predicate IntendedRanking(ys: seq<real>, order: seq<nat>) {
    |order| == |ys| && SortedDescending(ys, order) && multiset(order) == multiset(Range(|ys|))
  }

  /** Guess from the first SensorSize ranks and start the solver there. */
  method FitFromRanking(xs: seq<real>, ys: seq<real>, order: seq<nat>, solve: Solver) returns (p: FitParams)
    requires |xs| == SensorSize && |ys| == SensorSize && SensorSize <= |order|
    ensures p == solve(xs, ys, InitialParams(ys, order))
  {
    var fitM1, fitM2 := InitialGuess(order, SensorSize);
    var maxY := MaxElement(ys);
    p := solve(xs, ys, FitParams(maxY, fitM1, 3.0, maxY, fitM2, 3.0));
  }

  /**
   * fit_data as written: guess from the ranked index list with its 256
   * extra zeros, then fit.  When position 0 holds the only highest
   * value, both centres are guessed at 0.
   */
  method FitData(xs: seq<real>, ys: seq<real>, order: seq<nat>, solve: Solver) returns (p: FitParams)
    requires |xs| == SensorSize && |ys| == SensorSize && AsWrittenRanking(ys, order)
    ensures p == solve(xs, ys, InitialParams(ys, order))
    ensures (forall j :: 1 <= j < |ys| ==> ys[j] < ys[0]) ==>
      InitialParams(ys, order).mean1 == 0.0 && InitialParams(ys, order).mean2 == 0.0
  {
    if forall j :: 1 <= j < |ys| ==> ys[j] < ys[0] {
      AsWrittenGuessRepeatsPeak(ys, order);
    }
    p := FitFromRanking(xs, ys, order, solve);
  }

  /**
   * fit_data corrected: the same guess and fit over a ranking of 0 .. 255,
   * each once; a second centre found by a break then lies outside the
   * first peak's run, not next to it, and differs from the first centre.
   */
  method FitDataCorrected(xs: seq<real>, ys: seq<real>, order: seq<nat>, solve: Solver) returns (p: FitParams)
    requires |xs| == SensorSize && |ys| == SensorSize && IntendedRanking(ys, order)
    ensures p == solve(xs, ys, InitialParams(ys, order))
    ensures var r := RunBreak(order, SensorSize, 1, order[0], order[0]);
      r.Some? ==> (order[r.value] < RunLow(order, r.value) - 1 || order[r.value] > RunHigh(order, r.value) + 1)
                  && InitialParams(ys, order).mean2 != InitialParams(ys, order).mean1
  {
    RankingGuessLeavesRun(order, SensorSize);
    p := FitFromRanking(xs, ys, order, solve);
  }

  /** The profile as the real samples handed to the fit. */
  function ProfileSamples(image: seq<seq<int>>, hLines: bool): (ys: seq<real>)
    requires Tpx3Images.IsGrid(image)
    ensures |ys| == SensorSize
  {
    seq(SensorSize, ix requires 0 <= ix < SensorSize => ProfileOf(image, hLines)[ix] as real)
  }

  /** The sample positions 0 .. 255 handed to the fit. */
  function SamplePositions(): (xs: seq<real>)
    ensures |xs| == SensorSize && forall i :: 0 <= i < SensorSize ==> xs[i] == i as real
  {
    seq(SensorSize, i => i as real)
  }

  /** The lines find reports: the fitted centres and widths scaled from pixels to metres. */
  function FoundPair(image: seq<seq<int>>, hLines: bool, order: seq<nat>, solve: Solver): LinePair
    requires Tpx3Images.IsGrid(image) && SensorSize <= |order|
  {
    var p := solve(SamplePositions(), ProfileSamples(image, hLines), InitialParams(ProfileSamples(image, hLines), order));
    LinePair(hLines, p.mean1 * PixelSize, p.mean2 * PixelSize, p.sigma1 * PixelSize, p.sigma2 * PixelSize)
  }

  /**
   * find: build the profile, fit two peaks from the ranking fit_data
   * sorts, and scale the fitted centres and widths from pixels to metres.
   */
  method Find(image: seq<seq<int>>, hLines: bool, order: seq<nat>, solve: Solver)
    returns (lp: LinePair, xs: seq<real>, ys: seq<real>)
    requires Tpx3Images.IsGrid(image)
    requires AsWrittenRanking(ProfileSamples(image, hLines), order)
    ensures xs == SamplePositions() && ys == ProfileSamples(image, hLines)
    ensures lp == FoundPair(image, hLines, order, solve)
  {
    var slice := BuildProfile(image, hLines);
    xs, ys := [], [];
    for ix := 0 to SensorSize
      invariant |xs| == ix && |ys| == ix
      invariant forall i :: 0 <= i < ix ==> xs[i] == i as real
      invariant ys == ProfileSamples(image, hLines)[..ix]
    {
      xs := xs + [ix as real];
      ys := ys + [slice[ix] as real];
    }
    var soln := FitData(xs, ys, order, solve);
    lp := LinePair(hLines, soln.mean1 * PixelSize, soln.mean2 * PixelSize, soln.sigma1 * PixelSize, soln.sigma2 * PixelSize);
  }

  /* ---------------- the index list of fit_data ---------------- */

  /** The index list as written: n zeros from the sized constructor, then 0 .. n - 1 pushed after them. */
  function AsWrittenIndices(n: nat): (r: seq<nat>)
    ensures |r| == 2 * n
  {
    seq(n, _ => 0) + Range(n)
  }

  /** Two equal entries give a value at least two copies in the multiset. */
  lemma TwoCopies(s: seq<nat>, i: nat, j: nat)
    requires i < j < |s| && s[i] == s[j]
    ensures multiset(s)[s[i]] >= 2
  {
    assert s == s[..j] + s[j..];
    assert s[i] in s[..j];
    assert s[j] in s[j..];
    assert multiset(s) == multiset(s[..j]) + multiset(s[j..]);
  }

  /**
   * Finding, as written: when position 0 holds the unique highest profile
   * value, its n + 1 copies lead the ranking, so the rank after the top is
   * 0 again and the second peak is guessed at the first.
   */
  lemma {:induction false} AsWrittenGuessRepeatsPeak(ys: seq<real>, order: seq<nat>)
    requires 2 <= |ys|
    requires forall j :: 1 <= j < |ys| ==> ys[j] < ys[0]
    requires |order| == 2 * |ys| && SortedDescending(ys, order)
    requires multiset(order) == multiset(AsWrittenIndices(|ys|))
    ensures order[0] == 0 && order[1] == 0
    ensures RunBreak(order, |ys|, 1, order[0], order[0]) == Some(1)
    ensures GuessFromRun(order, |ys|) == (0.0, 0.0)
  {
    var n := |ys|;
    var w := AsWrittenIndices(n);
    TwoCopies(w, 0, 1);
    assert multiset(order)[0] >= 2;
    assert order == [order[0]] + order[1..];
    assert multiset(order) == multiset([order[0]]) + multiset(order[1..]);
    assert 0 in order[1..];
    var q :| 1 <= q < |order| && order[q] == 0;
    assert order[0] == 0;
    assert order[1] == 0;
  }

  lemma {:induction false} RangeCountAtMostOne(n: nat, v: nat)
    ensures multiset(Range(n))[v] <= 1
  {
    if n > 0 {
      assert Range(n) == Range(n - 1) + [n - 1];
      RangeCountAtMostOne(n - 1, v);
      if v == n - 1 {
        assert v !in Range(n - 1);
      }
    }
  }

  /** A ranking of 0 .. n - 1 names every position once. */
  lemma RankingDistinct(order: seq<nat>, n: nat)
    requires multiset(order) == multiset(Range(n))
    ensures forall i, j :: 0 <= i < j < |order| ==> order[i] != order[j]
  {
    forall i, j | 0 <= i < j < |order|
      ensures order[i] != order[j]
    {
      if order[i] == order[j] {
        TwoCopies(order, i, j);
        RangeCountAtMostOne(n, order[i]);
      }
    }
  }

  /** Every position from the run's low to its high end is among the first k ranks. */
  predicate RunCovered(order: seq<nat>, k: nat)
    requires 1 <= k <= |order|
  {
    forall v :: RunLow(order, k) <= v <= RunHigh(order, k) ==> v in order[..k]
  }

  lemma {:induction false} RunIsContiguous(order: seq<nat>, k: nat)
    requires 1 <= k <= |order| && AllExtend(order, 1, k)
    ensures RunCovered(order, k)
  {
    if k > 1 {
      RunIsContiguous(order, k - 1);
      assert Extends(order, k - 1);
      assert order[..k] == order[..k - 1] + [order[k - 1]];
      forall v | RunLow(order, k) <= v <= RunHigh(order, k)
        ensures v in order[..k]
      {
        if v != order[k - 1] {
          assert v in order[..k - 1];
        }
      }
    }
  }

  /**
   * Corrected: ranking only 0 .. n - 1, a run that stops does so at a
   * position outside the run and not next to it, so the second guess is
   * separated from the first peak's run by at least one position.
   */
  lemma RankingGuessLeavesRun(order: seq<nat>, n: nat)
    requires 1 <= n <= |order| && multiset(order) == multiset(Range(n))
    ensures var r := RunBreak(order, n, 1, order[0], order[0]);
      r.Some? ==> (order[r.value] < RunLow(order, r.value) - 1 || order[r.value] > RunHigh(order, r.value) + 1)
                  && order[r.value] != order[0]
  {
    RunBreakIsFirstGap(order, n, 1);
    var r := RunBreak(order, n, 1, order[0], order[0]);
    if r.Some? {
      var p := r.value;
      RunIsContiguous(order, p);
      RankingDistinct(order, n);
      assert order[p] !in order[..p];
      RunLowHigh(order, p);
    }
  }
}
