/** Memory regions, and the gaps they leave in an address interval. */
module Regions {
  import opened Words

  /** One mapped region, and its line in `/proc/PID/maps`. */
  datatype Region = Region(begin: nat, end: nat, line: string)

  /** A reserved address range, as a (begin, size) pair. */
  datatype Range = Range(begin: nat, size: nat) {
    function End(): nat { begin + size }

    predicate Contains(a: int) { begin <= a < begin + size }
  }

  predicate ValidRegion(r: Region) { r.begin < r.end < WORD64 }

  predicate Before(r: Region, t: Region) { r.end <= t.begin }

  // Well-formed, ascending and pairwise disjoint.
  ghost predicate Sorted(regions: seq<Region>) {
    && (forall i {:trigger ValidRegion(regions[i])} :: 0 <= i < |regions| ==> ValidRegion(regions[i]))
    && (forall i, j {:trigger Before(regions[i], regions[j])} ::
          0 <= i < j < |regions| ==> Before(regions[i], regions[j]))
  }

  // `Sorted`, unfolded for proofs to use.
  lemma Order(regions: seq<Region>)
    requires Sorted(regions)
    ensures forall i :: 0 <= i < |regions| ==> regions[i].begin < regions[i].end < WORD64
    ensures forall i, j :: 0 <= i < j < |regions| ==> regions[i].end <= regions[j].begin
  {
    forall i | 0 <= i < |regions| ensures regions[i].begin < regions[i].end < WORD64 {
      assert ValidRegion(regions[i]);
    }
    forall i, j | 0 <= i < j < |regions| ensures regions[i].end <= regions[j].begin {
      assert Before(regions[i], regions[j]);
    }
  }

  lemma SortedTail(regions: seq<Region>)
    requires Sorted(regions) && regions != []
    ensures ValidRegion(regions[0]) && Sorted(regions[1..])
    ensures forall i :: 0 <= i < |regions[1..]| ==> regions[0].end <= regions[1..][i].begin
  {
    forall i | 1 <= i < |regions| ensures regions[0].end <= regions[i].begin {
      assert Before(regions[0], regions[i]);
    }
  }

  lemma SortedCons(r: Region, rest: seq<Region>)
    requires ValidRegion(r) && Sorted(rest)
    requires forall i :: 0 <= i < |rest| ==> r.end <= rest[i].begin
    ensures Sorted([r] + rest)
  {}

  ghost predicate Covered(regions: seq<Region>, a: int) {
    exists i :: 0 <= i < |regions| && regions[i].begin <= a < regions[i].end
  }

  ghost predicate InRanges(ranges: seq<Range>, a: int) {
    exists i :: 0 <= i < |ranges| && ranges[i].Contains(a)
  }

  // `[lo, hi)` as a list of one range, or of none if it is empty.
  function Gap(lo: nat, hi: nat): seq<Range> {
    if hi > lo then [Range(lo, hi - lo)] else []
  }

  // The gaps in front of the listed regions, within `[lo, hi)`.
  function GapsBefore(regions: seq<Region>, lo: nat, hi: nat): seq<Range> {
    if regions == [] then []
    else Gap(lo, Min(regions[0].begin, hi)) + GapsBefore(regions[1..], Max(lo, regions[0].end), hi)
  }

  // Where the space after the listed regions begins.
  function After(regions: seq<Region>, lo: nat): nat {
    if regions == [] then lo else After(regions[1..], Max(lo, regions[0].end))
  }

  // All the gaps within `[lo, hi)`.
  function Gaps(regions: seq<Region>, lo: nat, hi: nat): seq<Range> {
    GapsBefore(regions, lo, hi) + Gap(After(regions, lo), hi)
  }

  // Non-empty ranges within `[lo, hi)`, ascending, no two of them overlapping or even adjacent.
  ghost predicate Separated(ranges: seq<Range>, lo: int, hi: int) {
    && (forall i :: 0 <= i < |ranges| ==> ranges[i].size > 0 && lo <= ranges[i].begin && ranges[i].End() <= hi)
    && (forall i, j :: 0 <= i < j < |ranges| ==> ranges[i].End() < ranges[j].begin)
  }

  // `[r.begin, r.End())` is free of regions, and extends as far as it can within `[lo, hi)`.
  ghost predicate MaximalGap(regions: seq<Region>, lo: nat, hi: nat, r: Range) {
    && r.size > 0 && lo <= r.begin && r.End() <= hi
    && (forall a :: r.begin <= a < r.End() ==> !Covered(regions, a))
    && (r.begin == lo || Covered(regions, r.begin - 1))
    && (r.End() == hi || Covered(regions, r.End()))
  }

  function TotalSize(ranges: seq<Range>): nat {
    if ranges == [] then 0 else ranges[0].size + TotalSize(ranges[1..])
  }

  // How many bytes of `[lo, hi)` the regions cover.
  function CoveredBytes(regions: seq<Region>, lo: nat, hi: nat): nat {
    if regions == [] then 0
    else Max(0, Min(regions[0].end, hi) - Max(regions[0].begin, lo)) + CoveredBytes(regions[1..], lo, hi)
  }

  lemma GapsUnfold(regions: seq<Region>, lo: nat, hi: nat)
    requires regions != []
    ensures Gaps(regions, lo, hi)
         == Gap(lo, Min(regions[0].begin, hi)) + Gaps(regions[1..], Max(lo, regions[0].end), hi)
  {}

  lemma CoveredUnfold(regions: seq<Region>, a: int)
    requires regions != []
    ensures Covered(regions, a) <==> regions[0].begin <= a < regions[0].end || Covered(regions[1..], a)
  {
    if Covered(regions, a) {
      var i :| 0 <= i < |regions| && regions[i].begin <= a < regions[i].end;
      assert i > 0 ==> regions[1..][i - 1] == regions[i];
    }
    if Covered(regions[1..], a) {
      var i :| 0 <= i < |regions[1..]| && regions[1..][i].begin <= a < regions[1..][i].end;
      assert regions[i + 1] == regions[1..][i];
    }
  }

  lemma InRangesAppend(r: seq<Range>, t: seq<Range>, a: int)
    ensures InRanges(r + t, a) <==> InRanges(r, a) || InRanges(t, a)
  {
    if InRanges(r + t, a) {
      var i :| 0 <= i < |r + t| && (r + t)[i].Contains(a);
      assert i >= |r| ==> t[i - |r|] == (r + t)[i];
    }
    if InRanges(r, a) {
      var i :| 0 <= i < |r| && r[i].Contains(a);
      assert (r + t)[i] == r[i];
    }
    if InRanges(t, a) {
      var i :| 0 <= i < |t| && t[i].Contains(a);
      assert (r + t)[|r| + i] == t[i];
    }
  }

  // Every address of `[lo, hi)` lies in a region or in a gap, never in both, and no gap leaves `[lo, hi)`.
  lemma {:induction false} GapsPartition(regions: seq<Region>, lo: nat, hi: nat, a: int)
    requires Sorted(regions)
    ensures InRanges(Gaps(regions, lo, hi), a) <==> lo <= a < hi && !Covered(regions, a)
  {
    Order(regions);
    if regions == [] {
      assert Gaps(regions, lo, hi) == Gap(lo, hi);
      if lo <= a < hi { assert Gaps(regions, lo, hi)[0].Contains(a); }
    } else {
      var first := Gap(lo, Min(regions[0].begin, hi));
      var lo' := Max(lo, regions[0].end);
      GapsUnfold(regions, lo, hi);
      CoveredUnfold(regions, a);
      InRangesAppend(first, Gaps(regions[1..], lo', hi), a);
      GapsPartition(regions[1..], lo', hi, a);
      assert InRanges(first, a) <==> lo <= a < Min(regions[0].begin, hi) by {
        if lo <= a < Min(regions[0].begin, hi) { assert first[0].Contains(a); }
      }
      assert Covered(regions[1..], a) ==> regions[0].end <= a;
    }
  }

  // The gaps come out in order, and any two of them have a region in between.
  lemma {:induction false} GapsSeparated(regions: seq<Region>, lo: nat, hi: nat)
    requires Sorted(regions)
    ensures Separated(Gaps(regions, lo, hi), lo, hi)
  {
    Order(regions);
    if regions != [] {
      var first := Gap(lo, Min(regions[0].begin, hi));
      var lo' := Max(lo, regions[0].end);
      GapsUnfold(regions, lo, hi);
      GapsSeparated(regions[1..], lo', hi);
      assert Separated(first, lo, lo' - 1);
      SeparatedAppend(first, Gaps(regions[1..], lo', hi), lo, lo' - 1, lo', hi);
    }
  }

  lemma SeparatedAppend(r: seq<Range>, t: seq<Range>, lo: int, mid: int, mid': int, hi: int)
    requires Separated(r, lo, mid) && Separated(t, mid', hi) && lo <= mid' && mid < mid'
    requires forall i :: 0 <= i < |r| ==> r[i].End() <= hi
    ensures Separated(r + t, lo, hi)
  {
    var all := r + t;
    forall i, j | 0 <= i < j < |all|
      ensures all[i].End() < all[j].begin
    {
      if i >= |r| {
        assert t[i - |r|].End() < t[j - |r|].begin;
      }
    }
  }

  // The gaps are exactly the maximal free ranges of `[lo, hi)`.
  lemma GapsAreMaximal(regions: seq<Region>, lo: nat, hi: nat, r: Range)
    requires Sorted(regions)
    ensures r in Gaps(regions, lo, hi) <==> MaximalGap(regions, lo, hi, r)
  {
    var gaps := Gaps(regions, lo, hi);
    GapsSeparated(regions, lo, hi);
    forall a ensures InRanges(gaps, a) <==> lo <= a < hi && !Covered(regions, a) {
      GapsPartition(regions, lo, hi, a);
    }
    if r in gaps {
      SeparatedIsMaximal(gaps, lo, hi, r);
      assert InRanges(gaps, r.begin);
      forall a | r.begin <= a < r.End() ensures !Covered(regions, a) {
        assert r.Contains(a);
        assert InRanges(gaps, a);
      }
    }
    if MaximalGap(regions, lo, hi, r) {
      assert InRanges(gaps, r.begin);
      var i :| 0 <= i < |gaps| && gaps[i].Contains(r.begin);
      var g := gaps[i];
      SeparatedIsMaximal(gaps, lo, hi, g);
      assert !InRanges(gaps, r.begin - 1) && !g.Contains(r.begin - 1);
      assert !InRanges(gaps, r.End()) && !g.Contains(r.End());
      assert g.End() < r.End() ==> !Covered(regions, g.End());
      assert r == g;
    }
  }

  lemma SeparatedIsMaximal(ranges: seq<Range>, lo: int, hi: int, r: Range)
    requires Separated(ranges, lo, hi) && r in ranges
    ensures !InRanges(ranges, r.begin - 1) && !InRanges(ranges, r.End())
  {
    var k :| 0 <= k < |ranges| && ranges[k] == r;
    forall i | 0 <= i < |ranges|
      ensures !ranges[i].Contains(r.begin - 1) && !ranges[i].Contains(r.End())
    {
      if i < k {
        assert ranges[i].End() < ranges[k].begin;
      } else if k < i {
        assert ranges[k].End() < ranges[i].begin;
      }
    }
  }

  predicate Aligned(a: int) { a % 4096 == 0 }

  ghost predicate AllAligned(ranges: seq<Range>) {
    forall r :: r in ranges ==> Aligned(r.begin) && Aligned(r.size)
  }

  // Between page-aligned regions, in a page-aligned interval, every gap consists of whole pages.
  lemma {:induction false} GapsAligned(regions: seq<Region>, lo: nat, hi: nat)
    requires forall i :: 0 <= i < |regions| ==> Aligned(regions[i].begin) && Aligned(regions[i].end)
    requires Aligned(lo) && Aligned(hi)
    ensures AllAligned(Gaps(regions, lo, hi))
  {
    if regions == [] {
      GapAligned(lo, hi);
      assert Gaps(regions, lo, hi) == Gap(lo, hi);
    } else {
      var lo' := Max(lo, regions[0].end);
      GapAligned(lo, Min(regions[0].begin, hi));
      GapsUnfold(regions, lo, hi);
      GapsAligned(regions[1..], lo', hi);
    }
  }

  lemma GapAligned(lo: nat, hi: nat)
    requires Aligned(lo) && Aligned(hi)
    ensures AllAligned(Gap(lo, hi))
  {}

  // Conservation: gap bytes and covered bytes add up to the interval.
  lemma {:induction false} GapsConserveBytes(regions: seq<Region>, lo: nat, hi: nat)
    requires Sorted(regions) && lo <= hi
    ensures TotalSize(Gaps(regions, lo, hi)) + CoveredBytes(regions, lo, hi) == hi - lo
  {
    Order(regions);
    if regions == [] {
      GapSize(lo, hi);
      assert Gaps(regions, lo, hi) == Gap(lo, hi);
    } else {
      var r := regions[0];
      var lo' := Max(lo, r.end);
      GapsUnfold(regions, lo, hi);
      TotalSizeAppend(Gap(lo, Min(r.begin, hi)), Gaps(regions[1..], lo', hi));
      GapSize(lo, Min(r.begin, hi));
      SplitAtRegion(r.begin, r.end, lo, hi);
      BytesAfterRegion(regions, lo, hi);
      if lo' <= hi {
        GapsConserveBytes(regions[1..], lo', hi);
      }
    }
  }

  // Once the first region is dealt with, only what lies after it counts.
  lemma BytesAfterRegion(regions: seq<Region>, lo: nat, hi: nat)
    requires Sorted(regions) && regions != [] && lo <= hi
    ensures var lo' := Max(lo, regions[0].end);
            if lo' <= hi then CoveredBytes(regions[1..], lo, hi) == CoveredBytes(regions[1..], lo', hi)
            else TotalSize(Gaps(regions[1..], lo', hi)) == 0 == CoveredBytes(regions[1..], lo, hi)
  {
    Order(regions);
    var lo' := Max(lo, regions[0].end);
    if lo' <= hi {
      CoveredBytesFrom(regions[1..], lo, lo', hi);
    } else {
      GapsSeparated(regions[1..], lo', hi);
      var gaps := Gaps(regions[1..], lo', hi);
      if gaps != [] {
        SeparatedFits(gaps, lo', hi);
        assert false;
      }
      NoneCoveredBeyond(regions[1..], lo, hi);
    }
  }

  lemma SeparatedFits(ranges: seq<Range>, lo: int, hi: int)
    requires Separated(ranges, lo, hi) && ranges != []
    ensures lo < hi
  {
    assert ranges[0].size > 0;
  }

  lemma GapSize(lo: nat, hi: nat)
    ensures TotalSize(Gap(lo, hi)) == Max(0, hi - lo)
  {
    if hi > lo { assert TotalSize([Range(lo, hi - lo)]) == hi - lo + TotalSize([]); }
  }

  // What lies in front of a region and what the region covers make up the start of the interval.
  lemma SplitAtRegion(b: nat, e: nat, lo: nat, hi: nat)
    requires b < e && lo <= hi
    ensures Max(0, Min(b, hi) - lo) + Max(0, Min(e, hi) - Max(b, lo)) == Min(Max(lo, e), hi) - lo
  {}

  lemma {:induction false} TotalSizeAppend(r: seq<Range>, t: seq<Range>)
    ensures TotalSize(r + t) == TotalSize(r) + TotalSize(t)
  {
    if r == [] {
      assert r + t == t;
    } else {
      assert (r + t)[1..] == r[1..] + t;
      TotalSizeAppend(r[1..], t);
    }
  }

  // Raising the lower bound to a point no later region reaches below loses nothing.
  lemma {:induction false} CoveredBytesFrom(regions: seq<Region>, lo: nat, lo': nat, hi: nat)
    requires lo <= lo' && forall i :: 0 <= i < |regions| ==> lo' == lo || lo' <= regions[i].begin
    ensures CoveredBytes(regions, lo, hi) == CoveredBytes(regions, lo', hi)
  {
    if regions != [] { CoveredBytesFrom(regions[1..], lo, lo', hi); }
  }

  lemma {:induction false} NoneCoveredBeyond(regions: seq<Region>, lo: nat, hi: nat)
    requires forall i :: 0 <= i < |regions| ==> hi <= regions[i].begin
    ensures CoveredBytes(regions, lo, hi) == 0
  {
    if regions != [] { NoneCoveredBeyond(regions[1..], lo, hi); }
  }
}
