/**
 * sort_timestamps: order the hits by arrival time with a stable sort of an
 * index permutation, then rebuild the three parallel vectors from it.
 *
 * The library sort is modelled by its contract: StableOrder is a reference
 * definition (insertion by key), and StableOrderUnique shows that every
 * stable sorting permutation is this one, so any stable sort gives the same
 * result.
 */
module TimestampSort {
  import opened Tpx3

  /** Hit i goes before hit j: earlier time, or the same time and earlier in the input. */
  predicate Before(toa: seq<int>, i: nat, j: nat)
    requires i < |toa| && j < |toa|
  {
    toa[i] < toa[j] || (toa[i] == toa[j] && i < j)
  }

  predicate InRange(toa: seq<int>, p: seq<nat>) {
    forall k :: 0 <= k < |p| ==> p[k] < |toa|
  }

  /** Strictly increasing in the (time, index) order: sorted by time, ties in input order. */
  predicate KeySorted(toa: seq<int>, p: seq<nat>)
    requires InRange(toa, p)
  {
    forall a, b :: 0 <= a < b < |p| ==> Before(toa, p[a], p[b])
  }

  /** p lists every index of toa exactly once. */
  predicate IsPermutation(toa: seq<int>, p: seq<nat>) {
    |p| == |toa| && InRange(toa, p)
    && (forall a, b :: 0 <= a < b < |p| ==> p[a] != p[b])
  }

  /** The contract of a stable sort of the indices by time. */
  predicate IsStableSortingPermutation(toa: seq<int>, p: seq<nat>) {
    IsPermutation(toa, p) && KeySorted(toa, p)
  }

  /** Insert index i into a key-sorted list. */
  function InsertByKey(toa: seq<int>, p: seq<nat>, i: nat): (r: seq<nat>)
    requires i < |toa| && InRange(toa, p) && KeySorted(toa, p)
    ensures |r| == |p| + 1 && InRange(toa, r)
    ensures forall x :: x in r <==> x in p || x == i
    ensures i !in p ==> KeySorted(toa, r)
  {
    if p == [] then [i]
    else if Before(toa, i, p[0]) then [i] + p
    else
      var rest := InsertByKey(toa, p[1..], i);
      assert p == [p[0]] + p[1..];
      assert i !in p ==> forall k :: 0 <= k < |rest| ==> Before(toa, p[0], rest[k]) by {
        if i !in p {
          forall k | 0 <= k < |rest| ensures Before(toa, p[0], rest[k]) {
            if rest[k] != i {
              assert rest[k] in p[1..];
              var j :| 0 <= j < |p[1..]| && p[1..][j] == rest[k];
              assert p[j + 1] == rest[k];
            }
          }
        }
      }
      [p[0]] + rest
  }

  /** The reference stable order of the first n indices. */
  function StableOrderOf(toa: seq<int>, n: nat): (r: seq<nat>)
    requires n <= |toa|
    ensures |r| == n && InRange(toa, r) && KeySorted(toa, r)
    ensures forall x: int :: x in r <==> 0 <= x < n
  {
    if n == 0 then []
    else InsertByKey(toa, StableOrderOf(toa, n - 1), n - 1)
  }

  function StableOrder(toa: seq<int>): seq<nat> {
    StableOrderOf(toa, |toa|)
  }

  /** The strict order makes a key-sorted list repetition-free. */
  lemma KeySortedDistinct(toa: seq<int>, p: seq<nat>)
    requires InRange(toa, p) && KeySorted(toa, p)
    ensures forall a, b :: 0 <= a < b < |p| ==> p[a] != p[b]
  {
    forall a, b | 0 <= a < b < |p| ensures p[a] != p[b] {
      assert Before(toa, p[a], p[b]);
    }
  }

  /** The reference order is a stable sorting permutation. */
  lemma StableOrderCorrect(toa: seq<int>)
    ensures IsStableSortingPermutation(toa, StableOrder(toa))
  {
    KeySortedDistinct(toa, StableOrder(toa));
  }

  /** Any two stable sorting permutations of the same times are equal. */
  lemma {:induction false} StableOrderUnique(toa: seq<int>, p: seq<nat>, q: seq<nat>)
    requires InRange(toa, p) && InRange(toa, q) && KeySorted(toa, p) && KeySorted(toa, q)
    requires forall x :: x in p <==> x in q
    ensures p == q
    decreases |p|
  {
    if p != [] { assert p[0] in p; }
    if q != [] { assert q[0] in q; }
    if p != [] && q != [] {
      assert p[0] in q;
      assert q[0] in p;
      var i :| 0 <= i < |q| && q[i] == p[0];
      var j :| 0 <= j < |p| && p[j] == q[0];
      assert p[0] == q[0];
      assert p == [p[0]] + p[1..] && q == [q[0]] + q[1..];
      forall x ensures x in p[1..] <==> x in q[1..] {
        if x in p[1..] {
          var a :| 0 <= a < |p| - 1 && p[1..][a] == x;
          assert Before(toa, p[0], p[a + 1]);
          assert x in q && x != q[0];
        }
        if x in q[1..] {
          var b :| 0 <= b < |q| - 1 && q[1..][b] == x;
          assert Before(toa, q[0], q[b + 1]);
          assert x in p && x != p[0];
        }
      }
      StableOrderUnique(toa, p[1..], q[1..]);
    }
  }

  /** The stable sorting permutation is unique: every stable sort yields StableOrder. */
  lemma AnyStableSortIsStableOrder(toa: seq<int>, p: seq<nat>)
    requires IsStableSortingPermutation(toa, p)
    ensures p == StableOrder(toa)
  {
    var r := StableOrder(toa);
    forall x ensures x in p <==> x in r {
      if x in r {
        assert x < |toa|;
        PermutationCovers(toa, p, x);
      }
    }
    StableOrderUnique(toa, p, r);
  }

  /** A permutation contains every index. */
  lemma PermutationCovers(toa: seq<int>, p: seq<nat>, x: nat)
    requires IsPermutation(toa, p) && x < |toa|
    ensures x in p
  {
    var s := set k | 0 <= k < |p| :: p[k];
    var all := Indices(|toa|);
    assert s <= all;
    CardOfImage(p);

    if x !in p {
      assert s <= all - {x};
      assert |all - {x}| == |toa| - 1;
      SubsetCard(s, all - {x});
    }
  }

  lemma {:induction false} CardOfImage(p: seq<nat>)
    requires forall a, b :: 0 <= a < b < |p| ==> p[a] != p[b]
    ensures |set k | 0 <= k < |p| :: p[k]| == |p|
  {
    if p != [] {
      var n := |p|;
      var pre := p[..n - 1];
      CardOfImage(pre);
      var s := set k | 0 <= k < n :: p[k];
      var s' := set k | 0 <= k < n - 1 :: pre[k];
      assert s == s' + {p[n - 1]};
      assert p[n - 1] !in s';
    }
  }

  lemma SubsetCard<T>(a: set<T>, b: set<T>)
    requires a <= b
    ensures |a| <= |b|
  {
    assert b == a + (b - a);
  }

  /**
   * sort_timestamps: sort the indices stably by time, then gather addr, toa
   * and tot through the sorted indices.
   */
  method SortTimestamps(d: PixelData) returns (r: PixelData, indices: seq<nat>)
    requires d.Aligned()
    ensures IsStableSortingPermutation(d.toa, indices)
    ensures r.Aligned() && r.NumPackets() == d.NumPackets()
    ensures forall k :: 0 <= k < |indices| ==> r.At(k) == d.At(indices[k])
    ensures forall a, b :: 0 <= a < b < r.NumPackets() ==> r.toa[a] <= r.toa[b]
    ensures forall a, b :: 0 <= a < b < r.NumPackets() && r.toa[a] == r.toa[b] ==> indices[a] < indices[b]
  {
    var n := |d.addr|;
    indices := StableOrder(d.toa);
    StableOrderCorrect(d.toa);
    var sortedAddr: seq<PixelAddr> := [];
    var sortedToa: seq<int> := [];
    var sortedTot: seq<U16> := [];
    for i := 0 to n
      invariant |sortedAddr| == i && |sortedToa| == i && |sortedTot| == i
      invariant forall k :: 0 <= k < i ==> sortedAddr[k] == d.addr[indices[k]]
      invariant forall k :: 0 <= k < i ==> sortedToa[k] == d.toa[indices[k]]
      invariant forall k :: 0 <= k < i ==> sortedTot[k] == d.tot[indices[k]]
    {
      var ix := indices[i];
      sortedAddr := sortedAddr + [d.addr[ix]];
      sortedToa := sortedToa + [d.toa[ix]];
      sortedTot := sortedTot + [d.tot[ix]];
    }
    r := PixelData(sortedAddr, sortedToa, sortedTot);
    forall a, b | 0 <= a < b < n
      ensures r.toa[a] <= r.toa[b]
      ensures r.toa[a] == r.toa[b] ==> indices[a] < indices[b]
    {
      assert Before(d.toa, indices[a], indices[b]);
    }
  }
}
