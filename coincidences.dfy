/**
 * findCoincidences: group centroids that arrive within the coincidence
 * window of one another.
 *
 * The centroids are visited in time order.  From each anchor the scan takes
 * every following centroid whose time is within the window of the anchor's
 * (not of its predecessor's), stops at the first one outside, and resumes
 * after the group.  A group of two is a pair, a larger one an n-fold
 * coincidence, and an anchor with no partner is passed over.
 *
 * The time order comes from an unstable library sort; it is a parameter
 * here, constrained by the sort's contract.  A group is described by its
 * Span, the run of positions it occupies in that order.
 */
module Coincidences {
  import opened Tpx3
  import TimestampSort

  /** Positions in the time order of a group: start, start + 1, ..., start + len - 1. */
  datatype Span = Span(start: nat, len: nat)

  datatype Coincidences = Coincidences(pairs: seq<CoincidencePair>, nfolds: seq<CoincidenceNFold>)

  function Times(cs: seq<Centroid>): (t: seq<int>)
    ensures |t| == |cs| && forall i :: 0 <= i < |cs| ==> t[i] == cs[i].toa
  {
    seq(|cs|, i requires 0 <= i < |cs| => cs[i].toa)
  }

  /** order lists every centroid once, in non-decreasing time. */
  predicate TimeOrder(cs: seq<Centroid>, order: seq<nat>) {
    TimestampSort.IsPermutation(Times(cs), order)
    && forall a, b :: 0 <= a < b < |order| ==> cs[order[a]].toa <= cs[order[b]].toa
  }

  predicate ValidOrder(cs: seq<Centroid>, order: seq<nat>) {
    |order| == |cs| && forall k :: 0 <= k < |order| ==> order[k] < |cs|
  }

  /** The centroid at position b arrives within the window (seconds) of the one at position a. */
  predicate InWindow(cs: seq<Centroid>, order: seq<nat>, window: real, a: nat, b: nat)
    requires ValidOrder(cs, order) && a < |order| && b < |order|
  {
    (cs[order[b]].toa - cs[order[a]].toa) as real * MinTick <= window
  }

  /** The centroid k positions after ix is within the window of the one at ix. */
  predicate InWindowAfter(cs: seq<Centroid>, order: seq<nat>, window: real, ix: nat, k: nat)
    requires ValidOrder(cs, order) && ix + k < |order|
  {
    InWindow(cs, order, window, ix, ix + k)
  }

  /**
   * The inner scan: from offset off, extend the group while the next
   * position is within the window of the anchor ix.
   */
  function RunEnd(cs: seq<Centroid>, order: seq<nat>, window: real, ix: nat, off: nat): (r: nat)
    requires ValidOrder(cs, order) && ix < |order| && 1 <= off && ix + off <= |order|
    ensures off <= r && ix + r <= |order|
    decreases |order| - off
  {
    if ix + off < |order| && InWindow(cs, order, window, ix, ix + off) then RunEnd(cs, order, window, ix, off + 1)
    else off
  }

  /** The inner scan stops at the end of the order or at the first centroid outside the window. */
  lemma {:induction false} RunEndStops(cs: seq<Centroid>, order: seq<nat>, window: real, ix: nat, off: nat)
    requires ValidOrder(cs, order) && ix < |order| && 1 <= off && ix + off <= |order|
    ensures ix + RunEnd(cs, order, window, ix, off) == |order|
      || !InWindow(cs, order, window, ix, ix + RunEnd(cs, order, window, ix, off))
    decreases |order| - off
  {
    if ix + off < |order| && InWindow(cs, order, window, ix, ix + off) {
      RunEndStops(cs, order, window, ix, off + 1);
    }
  }

  /** Everything the inner scan takes is within the window of the anchor. */
  lemma {:induction false} RunEndInWindow(cs: seq<Centroid>, order: seq<nat>, window: real, ix: nat, off: nat)
    requires ValidOrder(cs, order) && ix < |order| && 1 <= off && ix + off <= |order|
    ensures forall k :: off <= k < RunEnd(cs, order, window, ix, off) ==> InWindowAfter(cs, order, window, ix, k)
    decreases |order| - off
  {
    if ix + off < |order| && InWindow(cs, order, window, ix, ix + off) {
      RunEndInWindow(cs, order, window, ix, off + 1);
    }
  }

  /** The groups found from position ix on, in order. */
  function SpansFrom(cs: seq<Centroid>, order: seq<nat>, window: real, ix: nat): seq<Span>
    requires ValidOrder(cs, order)
    decreases |order| - ix
  {
    if ix >= |order| then []
    else
      var off := RunEnd(cs, order, window, ix, 1);
      if off == 1 then SpansFrom(cs, order, window, ix + 1)
      else [Span(ix, off)] + SpansFrom(cs, order, window, ix + off)
  }

  /** The cluster indices of a group. */
  function Group(order: seq<nat>, s: Span): (g: seq<nat>)
    requires s.start + s.len <= |order|
    ensures |g| == s.len && forall k :: 0 <= k < s.len ==> g[k] == order[s.start + k]
  {
    order[s.start..s.start + s.len]
  }

  /** Put one group in front: two clusters make a pair, more an n-fold coincidence. */
  function Prepend(g: seq<nat>, rest: Coincidences): Coincidences
    requires |g| >= 2
  {
    if |g| == 2 then Coincidences([CoincidencePair(g[0], g[1])] + rest.pairs, rest.nfolds)
    else Coincidences(rest.pairs, [CoincidenceNFold(g)] + rest.nfolds)
  }

  predicate SpansFit(order: seq<nat>, spans: seq<Span>) {
    forall i :: 0 <= i < |spans| ==> 2 <= spans[i].len && spans[i].start + spans[i].len <= |order|
  }

  function Classify(order: seq<nat>, spans: seq<Span>): Coincidences
    requires SpansFit(order, spans)
  {
    if spans == [] then Coincidences([], [])
    else Prepend(Group(order, spans[0]), Classify(order, spans[1..]))
  }

  /** What the scan finds from anchor ix on: the groups SpansFrom describes, each classified. */
  function Found(cs: seq<Centroid>, order: seq<nat>, window: real, ix: nat): Coincidences
    requires ValidOrder(cs, order)
  {
    SpansFromFit(cs, order, window, ix);
    Classify(order, SpansFrom(cs, order, window, ix))
  }

  /** Every group from ix on has two members or more and lies inside the order. */
  lemma SpansFromFit(cs: seq<Centroid>, order: seq<nat>, window: real, ix: nat)
    requires ValidOrder(cs, order)
    ensures SpansFit(order, SpansFrom(cs, order, window, ix))
  {
    SpansShape(cs, order, window, ix);
  }

  /** A lone anchor is passed over. */
  lemma FoundLone(cs: seq<Centroid>, order: seq<nat>, window: real, ix: nat)
    requires ValidOrder(cs, order) && ix < |order| && RunEnd(cs, order, window, ix, 1) == 1
    ensures Found(cs, order, window, ix) == Found(cs, order, window, ix + 1)
  {
    assert SpansFrom(cs, order, window, ix) == SpansFrom(cs, order, window, ix + 1);
  }

  /** A group at the anchor is the first span. */
  lemma SpansGroup(cs: seq<Centroid>, order: seq<nat>, window: real, ix: nat, off: nat)
    requires ValidOrder(cs, order) && ix < |order| && off == RunEnd(cs, order, window, ix, 1) && off > 1
    ensures SpansFrom(cs, order, window, ix) == [Span(ix, off)] + SpansFrom(cs, order, window, ix + off)
  {
  }

  /** A group at the anchor is classified in front of everything found after it. */
  lemma FoundGroup(cs: seq<Centroid>, order: seq<nat>, window: real, ix: nat, off: nat)
    requires ValidOrder(cs, order) && ix < |order| && off == RunEnd(cs, order, window, ix, 1) && off > 1
    ensures Found(cs, order, window, ix) == Prepend(order[ix..ix + off], Found(cs, order, window, ix + off))
  {
    SpansGroup(cs, order, window, ix, off);
    SpansFromFit(cs, order, window, ix + off);
    ClassifyCons(order, Span(ix, off), SpansFrom(cs, order, window, ix + off));
  }

  /** A fitting group in front of fitting groups: classified first, then the rest. */
  lemma ClassifyCons(order: seq<nat>, sp: Span, rest: seq<Span>)
    requires 2 <= sp.len && sp.start + sp.len <= |order| && SpansFit(order, rest)
    ensures SpansFit(order, [sp] + rest)
    ensures Classify(order, [sp] + rest) == Prepend(order[sp.start..sp.start + sp.len], Classify(order, rest))
  {
    var spans := [sp] + rest;
    assert spans[0] == sp && spans[1..] == rest;
    assert forall i :: 1 <= i < |spans| ==> spans[i] == rest[i - 1];
    assert Group(order, sp) == order[sp.start..sp.start + sp.len];
    assert Classify(order, spans) == Prepend(Group(order, sp), Classify(order, rest));
  }

  /**
   * The inner loop of findCoincidences: from anchor ix, collect the anchor
   * and every following centroid within its window.
   */
  method ScanRun(cs: seq<Centroid>, order: seq<nat>, window: real, ix: nat) returns (offset: nat, currCoinc: seq<nat>)
    requires ValidOrder(cs, order) && ix < |order|
    ensures offset == RunEnd(cs, order, window, ix, 1)
    ensures offset == 1 ==> currCoinc == []
    ensures offset > 1 ==> currCoinc == Group(order, Span(ix, offset))
  {
    var m := |order|;
    var anchor := cs[order[ix]].toa;
    currCoinc := [];
    offset := 1;
    var withinWindow := true;
    while withinWindow
      invariant 1 <= offset && ix + offset <= m
      invariant RunEnd(cs, order, window, ix, 1) == RunEnd(cs, order, window, ix, offset)
      invariant offset == 1 ==> currCoinc == []
      invariant offset > 1 ==> currCoinc == order[ix..ix + offset]
      invariant !withinWindow ==> RunEnd(cs, order, window, ix, offset) == offset
      decreases m - offset, withinWindow
    {
      if ix + offset >= m {
        break;
      }
      var currToa := cs[order[ix + offset]].toa;
      var dtoa := (currToa - anchor) as real * MinTick;
      if dtoa <= window {
        if offset == 1 {
          currCoinc := currCoinc + [order[ix]];
        }
        currCoinc := currCoinc + [order[ix + offset]];
        offset := offset + 1;
      } else {
        withinWindow := false;
      }
    }
  }

  /**
   * One pass of the outer loop: scan from anchor ix, record the group if
   * there is one, and move past it.
   */
  method ScanStep(cs: seq<Centroid>, order: seq<nat>, window: real, ix: nat,
                  pairs: seq<CoincidencePair>, nfolds: seq<CoincidenceNFold>)
    returns (ix': nat, pairs': seq<CoincidencePair>, nfolds': seq<CoincidenceNFold>)
    requires ValidOrder(cs, order) && ix < |order|
    ensures ix < ix' <= |order|
    ensures pairs' + Found(cs, order, window, ix').pairs == pairs + Found(cs, order, window, ix).pairs
    ensures nfolds' + Found(cs, order, window, ix').nfolds == nfolds + Found(cs, order, window, ix).nfolds
  {
    var offset, currCoinc := ScanRun(cs, order, window, ix);
    pairs', nfolds' := pairs, nfolds;
    if offset == 1 {
      FoundLone(cs, order, window, ix);
      ix' := ix + 1;
    } else {
      FoundGroup(cs, order, window, ix, offset);
      assert currCoinc == order[ix..ix + offset];
      ghost var rest := Found(cs, order, window, ix + offset);
      assert Found(cs, order, window, ix) == Prepend(currCoinc, rest);
      RecordGroup(rest, currCoinc, pairs, nfolds);
      if |currCoinc| == 2 {
        pairs' := pairs + [CoincidencePair(currCoinc[0], currCoinc[1])];
      } else {
        nfolds' := nfolds + [CoincidenceNFold(currCoinc)];
      }
      ix' := ix + offset;
    }
  }

  /** Recording a group at the end of the lists found so far is putting it in front of the rest. */
  lemma RecordGroup(rest: Coincidences, g: seq<nat>, pairs: seq<CoincidencePair>, nfolds: seq<CoincidenceNFold>)
    requires |g| >= 2
    ensures |g| == 2 ==> pairs + [CoincidencePair(g[0], g[1])] + rest.pairs == pairs + Prepend(g, rest).pairs
    ensures |g| == 2 ==> nfolds + rest.nfolds == nfolds + Prepend(g, rest).nfolds
    ensures |g| > 2 ==> pairs + rest.pairs == pairs + Prepend(g, rest).pairs
    ensures |g| > 2 ==> nfolds + [CoincidenceNFold(g)] + rest.nfolds == nfolds + Prepend(g, rest).nfolds
  {
    if |g| == 2 {
      assert pairs + [CoincidencePair(g[0], g[1])] + rest.pairs == pairs + ([CoincidencePair(g[0], g[1])] + rest.pairs);
    } else {
      assert nfolds + [CoincidenceNFold(g)] + rest.nfolds == nfolds + ([CoincidenceNFold(g)] + rest.nfolds);
    }
  }

  /** findCoincidences: the scan over the time order. */
  method FindCoincidences(cs: seq<Centroid>, order: seq<nat>, window: real) returns (r: Coincidences)
    requires ValidOrder(cs, order)
    ensures SpansFit(order, SpansFrom(cs, order, window, 0))
    ensures r == Classify(order, SpansFrom(cs, order, window, 0))
  {
    var m := |order|;
    ghost var all := Found(cs, order, window, 0);
    var pairs: seq<CoincidencePair> := [];
    var nfolds: seq<CoincidenceNFold> := [];
    var ix := 0;
    assert all.pairs == pairs + all.pairs && all.nfolds == nfolds + all.nfolds;
    while ix < m
      invariant 0 <= ix <= m
      invariant all.pairs == pairs + Found(cs, order, window, ix).pairs
      invariant all.nfolds == nfolds + Found(cs, order, window, ix).nfolds
      decreases m - ix
    {
      ix, pairs, nfolds := ScanStep(cs, order, window, ix, pairs, nfolds);
    }
    r := Coincidences(pairs, nfolds);
    SpansFromFit(cs, order, window, 0);
  }

  /* ---------------- what the groups are ---------------- */

  /** Every group from ix on has at least two members, fits the order, and groups follow one another without overlap. */
  predicate SpansWellFormed(order: seq<nat>, ix: nat, spans: seq<Span>) {
    SpansFit(order, spans)
    && (forall i :: 0 <= i < |spans| ==> ix <= spans[i].start)
    && (forall i :: 0 <= i < |spans| - 1 ==> spans[i].start + spans[i].len <= spans[i + 1].start)
  }

  lemma {:induction false} SpansShape(cs: seq<Centroid>, order: seq<nat>, window: real, ix: nat)
    requires ValidOrder(cs, order)
    ensures SpansWellFormed(order, ix, SpansFrom(cs, order, window, ix))
    decreases |order| - ix
  {
    if ix < |order| {
      var off := RunEnd(cs, order, window, ix, 1);
      if off == 1 {
        SpansShape(cs, order, window, ix + 1);
      } else {
        SpansShape(cs, order, window, ix + off);
        ConsWellFormed(order, ix, Span(ix, off), SpansFrom(cs, order, window, ix + off));
      }
    }
  }

  lemma ConsWellFormed(order: seq<nat>, ix: nat, s: Span, rest: seq<Span>)
    requires 2 <= s.len && ix <= s.start && s.start + s.len <= |order|
    requires SpansWellFormed(order, s.start + s.len, rest)
    ensures SpansWellFormed(order, ix, [s] + rest)
  {
    var all := [s] + rest;
    forall i | 0 <= i < |all| - 1
      ensures all[i].start + all[i].len <= all[i + 1].start
    {
      assert all[i + 1] == rest[i];
      if i > 0 {
        assert all[i] == rest[i - 1];
      }
    }
  }

  /**
   * Every group is a maximal run within the window of its first member: all
   * members are within the window of the first, and the centroid after the
   * group, if any, is not.
   */
  lemma {:induction false} SpansAreMaximalRuns(cs: seq<Centroid>, order: seq<nat>, window: real, ix: nat, i: nat)
    requires ValidOrder(cs, order) && i < |SpansFrom(cs, order, window, ix)|
    ensures var s := SpansFrom(cs, order, window, ix)[i];
      s.start + s.len <= |order|
      && (forall k :: 1 <= k < s.len ==> InWindowAfter(cs, order, window, s.start, k))
      && (s.start + s.len == |order| || !InWindow(cs, order, window, s.start, s.start + s.len))
    decreases |order| - ix
  {
    var off := RunEnd(cs, order, window, ix, 1);
    RunEndInWindow(cs, order, window, ix, 1);
    RunEndStops(cs, order, window, ix, 1);
    if off == 1 {
      SpansAreMaximalRuns(cs, order, window, ix + 1, i);
    } else if i > 0 {
      SpansAreMaximalRuns(cs, order, window, ix + off, i - 1);
    }
  }

  /** Position p is inside one of the groups. */
  predicate Covered(spans: seq<Span>, p: nat) {
    exists i :: 0 <= i < |spans| && spans[i].start <= p < spans[i].start + spans[i].len
  }

  /**
   * Nothing is missed: a position from ix on that is in no group is a
   * centroid whose successor in time order is outside its window.
   */
  lemma {:induction false} UncoveredHaveNoPartner(cs: seq<Centroid>, order: seq<nat>, window: real, ix: nat, p: nat)
    requires ValidOrder(cs, order) && ix <= p < |order|
    requires !Covered(SpansFrom(cs, order, window, ix), p)
    ensures p + 1 == |order| || !InWindow(cs, order, window, p, p + 1)
    decreases |order| - ix
  {
    var off := RunEnd(cs, order, window, ix, 1);
    var spans := SpansFrom(cs, order, window, ix);
    if off == 1 {
      if p > ix {
        UncoveredHaveNoPartner(cs, order, window, ix + 1, p);
      }
    } else {
      var rest := SpansFrom(cs, order, window, ix + off);
      assert spans == [Span(ix, off)] + rest;
      assert !(spans[0].start <= p < spans[0].start + spans[0].len);
      forall i | 0 <= i < |rest|
        ensures !(rest[i].start <= p < rest[i].start + rest[i].len)
      {
        assert spans[i + 1] == rest[i];
      }
      UncoveredHaveNoPartner(cs, order, window, ix + off, p);
    }
  }

  /** Pairs are exactly the groups of two, n-folds the larger groups, in scan order. */
  lemma {:induction false} ClassifySplits(order: seq<nat>, spans: seq<Span>)
    requires SpansFit(order, spans)
    ensures var r := Classify(order, spans);
      |r.pairs| + |r.nfolds| == |spans|
      && (forall p :: p in r.pairs ==> exists i :: 0 <= i < |spans| && spans[i].len == 2 && Group(order, spans[i]) == [p.id1, p.id2])
      && (forall f :: f in r.nfolds ==> exists i :: 0 <= i < |spans| && spans[i].len > 2 && Group(order, spans[i]) == f.ids)
  {
    if spans != [] {
      ClassifySplits(order, spans[1..]);
      var rest := Classify(order, spans[1..]);
      var g := Group(order, spans[0]);
      forall p | p in Classify(order, spans).pairs
        ensures exists i :: 0 <= i < |spans| && spans[i].len == 2 && Group(order, spans[i]) == [p.id1, p.id2]
      {
        if p in rest.pairs {
          var i :| 0 <= i < |spans[1..]| && spans[1..][i].len == 2 && Group(order, spans[1..][i]) == [p.id1, p.id2];
          assert spans[i + 1] == spans[1..][i];
        } else {
          assert Group(order, spans[0]) == [p.id1, p.id2];
        }
      }
      forall f | f in Classify(order, spans).nfolds
        ensures exists i :: 0 <= i < |spans| && spans[i].len > 2 && Group(order, spans[i]) == f.ids
      {
        if f in rest.nfolds {
          var i :| 0 <= i < |spans[1..]| && spans[1..][i].len > 2 && Group(order, spans[1..][i]) == f.ids;
          assert spans[i + 1] == spans[1..][i];
        } else {
          assert Group(order, spans[0]) == f.ids;
        }
      }
    }
  }

  /** Over a permutation, no cluster is in two groups. */
  lemma GroupsDisjoint(cs: seq<Centroid>, order: seq<nat>, window: real, i: nat, j: nat, a: nat, b: nat)
    requires TimeOrder(cs, order)
    requires ValidOrder(cs, order) && i < j < |SpansFrom(cs, order, window, 0)|
    requires SpansFit(order, SpansFrom(cs, order, window, 0))
    requires a < SpansFrom(cs, order, window, 0)[i].len && b < SpansFrom(cs, order, window, 0)[j].len
    ensures Group(order, SpansFrom(cs, order, window, 0)[i])[a] != Group(order, SpansFrom(cs, order, window, 0)[j])[b]
  {
    var spans := SpansFrom(cs, order, window, 0);
    SpansShape(cs, order, window, 0);
    SpansOrdered(order, spans, i, j);
    var p := spans[i].start + a;
    var q := spans[j].start + b;
    assert p < q;
  }

  /** A later group starts after an earlier one ends. */
  lemma {:induction false} SpansOrdered(order: seq<nat>, spans: seq<Span>, i: nat, j: nat)
    requires SpansWellFormed(order, 0, spans) && i < j < |spans|
    ensures spans[i].start + spans[i].len <= spans[j].start
    decreases j - i
  {
    if j > i + 1 {
      SpansOrdered(order, spans, i, j - 1);
    }
  }
}
