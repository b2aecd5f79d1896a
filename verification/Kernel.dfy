/** The kernel side of alloc.cpp: an address space, its listing as a file read in chunks, and `MAP_FIXED`. */
module Kernel {
  import opened Words
  import opened Regions
  import opened Listing

  // The regions the listing shows from address `pos` on.
  function From(space: seq<Region>, pos: nat): seq<Region> {
    if space == [] then [] else if space[0].end > pos then space else From(space[1..], pos)
  }

  // The regions that begin above `e`.
  function Above(space: seq<Region>, e: nat): seq<Region> {
    if space == [] then [] else if space[0].begin > e then space else Above(space[1..], e)
  }

  // What a fixed mapping of `[b, e)` leaves of the regions: their parts below `b`, and from `e` on.
  function LowPart(space: seq<Region>, b: nat): seq<Region> {
    if space == [] || space[0].begin >= b then []
    else [space[0].(end := Min(space[0].end, b))] + LowPart(space[1..], b)
  }

  function HighPart(space: seq<Region>, e: nat): seq<Region> {
    if space == [] then []
    else if space[0].end <= e then HighPart(space[1..], e)
    else [space[0].(begin := Max(space[0].begin, e))] + space[1..]
  }

  lemma {:induction false} FromNext(space: seq<Region>, pos: nat)
    requires Sorted(space) && From(space, pos) != []
    ensures var unread := From(space, pos); From(space, unread[0].end) == unread[1..] && ValidRegion(unread[0])
  {
    Order(space);
    if space[0].end > pos {
      assert space[1..] == [] || space[1].end > space[0].end;
    } else {
      FromNext(space[1..], pos);
      assert From(space, From(space, pos)[0].end) == From(space[1..], From(space, pos)[0].end) by {
        FromMember(space[1..], pos);
      }
    }
  }

  lemma {:induction false} FromMember(space: seq<Region>, pos: nat)
    requires Sorted(space) && From(space, pos) != []
    ensures From(space, pos)[0] in space
  {
    Order(space);
    if space[0].end <= pos { FromMember(space[1..], pos); }
  }

  lemma {:induction false} FromViaAbove(space: seq<Region>, e: nat, pos: nat)
    requires Sorted(space) && forall i :: 0 <= i < |space| && space[i].begin <= e ==> space[i].end <= pos
    ensures From(space, pos) == From(Above(space, e), pos)
  {
    Order(space);
    if space != [] && space[0].begin <= e { FromViaAbove(space[1..], e, pos); }
  }

  lemma {:induction false} AboveMember(space: seq<Region>, e: nat, r: Region)
    requires Sorted(space)
    ensures r in Above(space, e) <==> r in space && r.begin > e
  {
    Order(space);
    if space != [] {
      if space[0].begin > e {
        assert forall i :: 0 < i < |space| ==> space[i].begin > e;
      } else {
        AboveMember(space[1..], e, r);
        assert r in space <==> r == space[0] || r in space[1..];
      }
    }
  }

  lemma {:induction false} LowPartSorted(space: seq<Region>, b: nat)
    requires Sorted(space)
    ensures var low := LowPart(space, b);
            && Sorted(low)
            && forall i :: 0 <= i < |low| ==> |space| > 0 && space[0].begin <= low[i].begin && low[i].end <= b
  {
    Order(space);
    if space != [] && space[0].begin < b {
      LowPartSorted(space[1..], b);
      var rest := LowPart(space[1..], b);
      assert forall i :: 0 <= i < |rest| ==> |space| > 1 && space[1].begin <= rest[i].begin;
    }
  }

  lemma {:induction false} LowPartMeaning(space: seq<Region>, b: nat, a: int)
    requires Sorted(space)
    ensures Covered(LowPart(space, b), a) <==> Covered(space, a) && a < b
  {
    Order(space);
    if space != [] && space[0].begin < b {
      LowPartMeaning(space[1..], b, a);
      CoveredUnfold(space, a);
      CoveredUnfold(LowPart(space, b), a);
      assert LowPart(space, b)[1..] == LowPart(space[1..], b);
    }
  }

  lemma {:induction false} HighPartSorted(space: seq<Region>, e: nat)
    requires Sorted(space)
    ensures Sorted(HighPart(space, e)) && forall i :: 0 <= i < |HighPart(space, e)| ==> HighPart(space, e)[i].begin >= e
    ensures Above(HighPart(space, e), e) == Above(space, e)
  {
    if space != [] {
      SortedTail(space);
      if space[0].end <= e {
        HighPartSorted(space[1..], e);
      } else {
        SortedCons(space[0].(begin := Max(space[0].begin, e)), space[1..]);
        assert HighPart(space, e)[1..] == space[1..];
      }
    }
  }

  lemma {:induction false} HighPartMeaning(space: seq<Region>, e: nat, a: int)
    requires Sorted(space)
    ensures Covered(HighPart(space, e), a) <==> Covered(space, a) && a >= e
  {
    Order(space);
    if space != [] {
      CoveredUnfold(space, a);
      if space[0].end <= e {
        HighPartMeaning(space[1..], e, a);
      } else {
        CoveredUnfold(HighPart(space, e), a);
        assert HighPart(space, e)[1..] == space[1..];
      }
    }
  }

  // The address space once `[b, e)` is mapped; a region that ends at `b` or begins at `e` may be merged
  // with the new one.
  function Mapped(space: seq<Region>, b: nat, e: nat, mergeLow: bool, mergeHigh: bool, line: string): seq<Region> {
    var (low, begin) := MergeLow(LowPart(space, b), b, mergeLow);
    var (high, end) := MergeHigh(HighPart(space, e), e, mergeHigh);
    low + [Region(begin, end, line)] + high
  }

  function MergeLow(low: seq<Region>, b: nat, merge: bool): (seq<Region>, nat) {
    var n := |low|;
    if merge && n > 0 && low[n - 1].end == b then (low[..n - 1], low[n - 1].begin) else (low, b)
  }

  function MergeHigh(high: seq<Region>, e: nat, merge: bool): (seq<Region>, nat) {
    if merge && high != [] && high[0].begin == e then (high[1..], high[0].end) else (high, e)
  }

  lemma MergeLowMeaning(low: seq<Region>, b: nat, merge: bool)
    requires Sorted(low) && forall i :: 0 <= i < |low| ==> low[i].end <= b
    ensures var (low', begin) := MergeLow(low, b, merge);
            && begin <= b && Sorted(low') && (forall i :: 0 <= i < |low'| ==> low'[i].end <= begin)
            && forall a :: Covered(low, a) <==> Covered(low', a) || begin <= a < b
  {
    Order(low);
    forall a | low != []
      ensures Covered(low, a) <==> Covered(low[..|low| - 1], a) || low[|low| - 1].begin <= a < low[|low| - 1].end
    {
      CoveredLast(low, a);
    }
  }

  lemma MergeHighMeaning(high: seq<Region>, e: nat, merge: bool)
    requires Sorted(high) && e < WORD64 && forall i :: 0 <= i < |high| ==> high[i].begin >= e
    ensures var (high', end) := MergeHigh(high, e, merge);
            && e <= end < WORD64 && Sorted(high') && (forall i :: 0 <= i < |high'| ==> end <= high'[i].begin)
            && Above(high', e) == Above(high, e)
            && forall a :: Covered(high, a) <==> Covered(high', a) || e <= a < end
  {
    Order(high);
    forall a | high != []
      ensures Covered(high, a) <==> high[0].begin <= a < high[0].end || Covered(high[1..], a)
    {
      CoveredUnfold(high, a);
    }
  }

  lemma MappedMeaning(space: seq<Region>, b: nat, e: nat, mergeLow: bool, mergeHigh: bool, line: string)
    requires Sorted(space) && b < e < WORD64
    ensures var space' := Mapped(space, b, e, mergeLow, mergeHigh, line);
            && Sorted(space') && Above(space', e) == Above(space, e)
            && forall a :: Covered(space', a) <==> Covered(space, a) || b <= a < e
  {
    var low, high := LowPart(space, b), HighPart(space, e);
    LowPartSorted(space, b);
    HighPartSorted(space, e);
    var (low', begin) := MergeLow(low, b, mergeLow);
    var (high', end) := MergeHigh(high, e, mergeHigh);
    MergeLowMeaning(low, b, mergeLow);
    MergeHighMeaning(high, e, mergeHigh);
    Join(low', Region(begin, end, line), high', e);
    forall a ensures Covered(low, a) || Covered(high, a) <==> Covered(space, a) && !(b <= a < e) {
      LowPartMeaning(space, b, a);
      HighPartMeaning(space, e, a);
    }
  }

  lemma CoveredLast(regions: seq<Region>, a: int)
    requires regions != []
    ensures var n := |regions| - 1;
            Covered(regions, a) <==> Covered(regions[..n], a) || regions[n].begin <= a < regions[n].end
  {
    var n := |regions| - 1;
    CoveredAppend(regions[..n], [regions[n]], a);
    assert regions == regions[..n] + [regions[n]];
    assert [regions[n]][0] == regions[n];
  }

  lemma Join(low: seq<Region>, r: Region, high: seq<Region>, e: nat)
    requires Sorted(low) && ValidRegion(r) && Sorted(high)
    requires forall i :: 0 <= i < |low| ==> low[i].end <= r.begin
    requires forall i :: 0 <= i < |high| ==> r.end <= high[i].begin
    requires r.begin <= e
    ensures Sorted(low + [r] + high) && Above(low + [r] + high, e) == Above(high, e)
    ensures forall a :: Covered(low + [r] + high, a) <==> Covered(low, a) || r.begin <= a < r.end || Covered(high, a)
  {
    Order(low);
    Order(high);
    AboveSkips(low + [r], high, e);
    forall a
      ensures Covered(low + [r] + high, a) <==> Covered(low, a) || r.begin <= a < r.end || Covered(high, a)
    {
      CoveredAppend(low + [r], high, a);
      CoveredAppend(low, [r], a);
      assert [r][0] == r;
    }
  }

  lemma {:induction false} AboveSkips(low: seq<Region>, high: seq<Region>, e: nat)
    requires forall i :: 0 <= i < |low| ==> low[i].begin <= e
    ensures Above(low + high, e) == Above(high, e)
  {
    if low == [] {
      assert low + high == high;
    } else {
      assert (low + high)[1..] == low[1..] + high;
      AboveSkips(low[1..], high, e);
    }
  }

  lemma CoveredAppend(r: seq<Region>, t: seq<Region>, a: int)
    ensures Covered(r + t, a) <==> Covered(r, a) || Covered(t, a)
  {
    if Covered(r + t, a) {
      var i :| 0 <= i < |r + t| && (r + t)[i].begin <= a < (r + t)[i].end;
      assert i >= |r| ==> t[i - |r|] == (r + t)[i];
    }
    if Covered(r, a) {
      var i :| 0 <= i < |r| && r[i].begin <= a < r[i].end;
      assert (r + t)[i] == r[i];
    }
    if Covered(t, a) {
      var i :| 0 <= i < |t| && t[i].begin <= a < t[i].end;
      assert (r + t)[|r| + i] == t[i];
    }
  }

  // What listing the next region changes, when the unread part is `regions[shown..]`.
  lemma FormatStep(space: seq<Region>, pos: nat, regions: seq<Region>, shown: nat)
    requires Sorted(space) && shown < |regions| && From(space, pos) == regions[shown..]
    ensures Text(regions[..shown + 1]) == Text(regions[..shown]) + regions[shown].line
    ensures From(space, regions[shown].end) == regions[shown + 1..]
  {
    FromNext(space, pos);
    assert regions[shown..][0] == regions[shown];
    assert regions[shown..][1..] == regions[shown + 1..];
    assert regions[..shown + 1] == regions[..shown] + [regions[shown]];
    TextAppend(regions[..shown], [regions[shown]]);
    TextOne(regions[shown]);
  }

  lemma TextOne(r: Region)
    ensures Text([r]) == r.line
  {
    assert [r][1..] == [];
    assert r.line + "" == r.line;
  }

  // The address space holds the original mappings and the reservations that succeeded, and nothing else.
  ghost predicate Accounts(space: seq<Region>, original: seq<Region>, reserved: seq<Range>, missed: seq<Range>) {
    && (forall r :: r in missed ==> r in reserved)
    && forall a :: Covered(space, a) <==> Covered(original, a) || (InRanges(reserved, a) && !InRanges(missed, a))
  }

  class Kernel {
    var space: seq<Region>
    var pos: nat         // where the listing resumes
    var pending: string  // formatted, but not yet read
    var retries: nat     // how many more reads may fail with EAGAIN

    ghost const original: seq<Region>
    ghost var shown: nat  // how many regions of the original have been formatted
    ghost var delivered: string
    ghost var reserved: seq<Range>  // what has been asked for with `MAP_FIXED`
    ghost var missed: seq<Range>    // and did not succeed
    ghost var clobbered: bool  // whether a fixed mapping has replaced an existing one

    ghost predicate Valid()
      reads this
    {
      && Sorted(space) && Sorted(original)
      && shown <= |original|
      && delivered + pending == Text(original[..shown])
      && pos == if shown == 0 then 0 else original[shown - 1].end
    }

    // Just opened.
    ghost predicate AtStart()
      reads this
    {
      space == original && shown == 0 && delivered == "" && reserved == missed == [] && !clobbered
    }

    // The unread part of the listing is still what it was at the start.
    ghost predicate UnreadIntact()
      reads this
    {
      shown <= |original| && From(space, pos) == original[shown..]
    }

    ghost predicate Accounted()
      reads this
    {
      Accounts(space, original, reserved, missed)
    }

    constructor (space: seq<Region>, retries: nat)
      requires Sorted(space)
      ensures Valid() && AtStart() && UnreadIntact() && Accounted() && original == space
    {
      this.space, this.original, this.retries := space, space, retries;
      pos, pending, shown, delivered := 0, "", 0, "";
      reserved, missed, clobbered := [], [], false;
      new;
      assert From(space, 0) == space by {
        assert space == [] || ValidRegion(space[0]);
      }
    }

    // Fails with EAGAIN, or delivers any non-empty part of the text that fits, formatting as many
    // further regions of the space as it likes; 0 means end of file.
    method Read(buffer: array<char>) returns (n: int)
      requires Valid() && UnreadIntact() && buffer.Length > 0
      modifies `pos, `pending, `retries, `shown, `delivered, buffer
      ensures Valid() && UnreadIntact()
      ensures -1 <= n <= buffer.Length
      ensures if n == -1 then retries < old(retries) && delivered == old(delivered) else retries == old(retries)
      ensures n >= 0 ==> delivered == old(delivered) + buffer[..n]
      ensures n == 0 ==> delivered == Text(original)
    {
      var again: bool := *;
      if again && retries > 0 {
        retries := retries - 1;
        return -1;
      }
      Format();
      if pending == "" {
        assert delivered + "" == delivered && original[..|original|] == original;
        return 0;
      }
      n :| 1 <= n <= |pending| && n <= buffer.Length;
      forall i | 0 <= i < n { buffer[i] := pending[i]; }
      assert buffer[..n] == pending[..n];
      assert delivered + pending == delivered + pending[..n] + pending[n..];
      delivered := delivered + pending[..n];
      pending := pending[n..];
    }

    // Formats further regions of the space, at least one if nothing is pending.
    method Format()
      requires Valid() && UnreadIntact()
      modifies `pos, `pending, `shown
      ensures Valid() && UnreadIntact()
      ensures pending == "" ==> shown == |original|
    {
      while true
        invariant Valid() && UnreadIntact()
        decreases |From(space, pos)|
      {
        var unread := From(space, pos);
        var more: bool := *;
        if unread == [] || (pending != "" && !more) { break; }
        FormatNext();
      }
      assert shown < |original| ==> original[shown..] != [];
    }

    method FormatNext()
      requires Valid() && UnreadIntact() && From(space, pos) != []
      modifies `pos, `pending, `shown
      ensures Valid() && UnreadIntact()
      ensures |From(space, pos)| < old(|From(space, pos)|)
    {
      var next := From(space, pos)[0];
      FormatStep(space, pos, original, shown);
      Associative(delivered, pending, next.line);
      pending := pending + next.line;
      pos := next.end;
      shown := shown + 1;
    }

    // Maps `[begin, begin + size)`, replacing whatever was there, and possibly merges the new region
    // with the regions it touches; or fails.
    method MapFixed(begin: nat, size: nat) returns (ok: bool)
      requires Valid() && size > 0 && begin + size < WORD64
      modifies `space, `reserved, `missed, `clobbered
      ensures Valid()
      ensures reserved == old(reserved) + [Range(begin, size)]
      ensures missed == old(missed) + if ok then [] else [Range(begin, size)]
      ensures clobbered <==> old(clobbered) || exists a :: begin <= a < begin + size && old(Covered(space, a))
      ensures forall a :: Covered(space, a) <==> old(Covered(space, a)) || (ok && begin <= a < begin + size)
      ensures !ok ==> space == old(space)
      ensures Above(space, begin + size) == Above(old(space), begin + size)
    {
      clobbered := clobbered || exists a :: begin <= a < begin + size && Covered(space, a);
      reserved := reserved + [Range(begin, size)];
      ok := *;
      if ok {
        space := Place(space, begin, begin + size);
      } else {
        missed := missed + [Range(begin, size)];
      }
    }
  }

  // Any of the address spaces that mapping `[b, e)` can result in.
  method Place(space: seq<Region>, b: nat, e: nat) returns (space': seq<Region>)
    requires Sorted(space) && b < e < WORD64
    ensures Sorted(space') && Above(space', e) == Above(space, e)
    ensures forall a :: Covered(space', a) <==> Covered(space, a) || b <= a < e
  {
    var mergeLow: bool, mergeHigh: bool, line: string := *, *, *;
    MappedMeaning(space, b, e, mergeLow, mergeHigh, line);
    space' := Mapped(space, b, e, mergeLow, mergeHigh, line);
  }
}
