/** `StealMemoryRegion` of alloc.cpp: reserves every gap of an address interval while reading the listing. */
module Stealer {
  import opened Words
  import opened Regions
  import opened Listing
  import opened Kernel
  import Hex
  import opened Buckets

  // Reservations made while the text of the first `shown` regions is being read are gaps of the whole
  // space, and lie below the last of those regions.
  lemma ReservedSoFar(regions: seq<Region>, shown: nat, read: string, rest: string, lo: nat, hi: nat)
    requires Sorted(regions) && Formatted(regions) && shown <= |regions|
    requires read + rest == Text(regions[..shown])
    ensures var reserved := Run(INITIAL, read, lo, hi).reserved;
            && reserved <= Gaps(regions, lo, hi)
            && forall i :: 0 <= i < |reserved| ==> 0 < shown && reserved[i].End() < regions[shown - 1].end
  {
    var listed := regions[..shown];
    RunAppend(INITIAL, read, rest, lo, hi);
    RunExtends(Run(INITIAL, read, lo, hi), rest, lo, hi);
    RunText(listed, 0, [], lo, hi);
    assert [] + GapsBefore(listed, lo, hi) == GapsBefore(listed, lo, hi);
    assert listed + regions[shown..] == regions;
    GapsBeforePrefix(listed, regions[shown..], lo, hi);
    GapsBeforeBelow(listed, lo, hi, 0);
    if shown > 0 { LastEndIsLast(listed, 0); }
  }

  lemma {:induction false} GapsBeforePrefix(listed: seq<Region>, unread: seq<Region>, lo: nat, hi: nat)
    ensures GapsBefore(listed, lo, hi) <= GapsBefore(listed + unread, lo, hi)
  {
    if listed != [] {
      assert (listed + unread)[1..] == listed[1..] + unread;
      GapsBeforePrefix(listed[1..], unread, Max(lo, listed[0].end), hi);
    }
  }

  lemma {:induction false} GapsBeforeBelow(listed: seq<Region>, lo: nat, hi: nat, from: nat)
    requires Sorted(listed)
    ensures forall i :: 0 <= i < |GapsBefore(listed, lo, hi)| ==>
              GapsBefore(listed, lo, hi)[i].End() < LastEnd(listed, from)
  {
    Order(listed);
    if listed != [] {
      GapsBeforeBelow(listed[1..], Max(lo, listed[0].end), hi, listed[0].end);
      LastEndAbove(listed[1..], listed[0].end);
    }
  }

  lemma {:induction false} LastEndAbove(listed: seq<Region>, from: nat)
    requires Sorted(listed) && forall i :: 0 <= i < |listed| ==> from <= listed[i].begin
    ensures from <= LastEnd(listed, from)
  {
    Order(listed);
    if listed != [] { LastEndAbove(listed[1..], listed[0].end); }
  }

  // The next gap to be reserved is free: no original region and no earlier reservation is in it.
  lemma NextGapIsFree(regions: seq<Region>, reserved: seq<Range>, next: Range, lo: nat, hi: nat, a: int)
    requires Sorted(regions) && reserved + [next] <= Gaps(regions, lo, hi) && next.Contains(a)
    ensures !Covered(regions, a) && !InRanges(reserved, a)
  {
    var gaps := Gaps(regions, lo, hi);
    var n := |reserved|;
    assert gaps[n] == (reserved + [next])[n];
    GapsPartition(regions, lo, hi, a);
    GapsSeparated(regions, lo, hi);
    assert gaps[n].Contains(a);
    forall i | 0 <= i < n ensures !reserved[i].Contains(a) {
      assert reserved[i] == (reserved + [next])[i] == gaps[i];
      assert gaps[i].End() < gaps[n].begin;
    }
  }

  // A mapping that ends below the resume address leaves the unread part of the listing alone.
  lemma UnreadUnchanged(regions: seq<Region>, shown: nat, space: seq<Region>, space': seq<Region>, b: nat, e: nat)
    requires Sorted(regions) && Sorted(space) && Sorted(space') && 0 < shown <= |regions|
    requires b < e < regions[shown - 1].end && From(space, regions[shown - 1].end) == regions[shown..]
    requires Above(space', e) == Above(space, e)
    requires forall a :: Covered(space', a) <==> Covered(space, a) || b <= a < e
    ensures From(space', regions[shown - 1].end) == regions[shown..]
  {
    Order(regions);
    Order(space);
    Order(space');
    var pos := regions[shown - 1].end;
    assert forall r :: r in regions[shown..] ==> pos <= r.begin;
    BelowOrUnread(space, pos);
    FromViaAbove(space, e, pos);
    forall i | 0 <= i < |space'| && space'[i].begin <= e
      ensures space'[i].end <= pos
    {
      StaysBelow(space, space', e, pos, i);
    }
    FromViaAbove(space', e, pos);
  }

  // What begins at or below `e` ends at or below `pos`, where only regions from above `e` reach.
  lemma StaysBelow(space: seq<Region>, space': seq<Region>, e: nat, pos: nat, i: nat)
    requires Sorted(space) && Sorted(space') && Above(space', e) == Above(space, e) && e < pos
    requires Covered(space', pos) ==> Covered(space, pos)
    requires forall j :: 0 <= j < |space| && space[j].begin <= e ==> space[j].end <= pos
    requires i < |space'| && space'[i].begin <= e
    ensures space'[i].end <= pos
  {
    Order(space');
    if Covered(space, pos) {
      var j :| 0 <= j < |space| && space[j].begin <= pos < space[j].end;
      AboveMember(space, e, space[j]);
      AboveMember(space', e, space[j]);
      var k :| 0 <= k < |space'| && space'[k] == space[j];
      assert i < k;
    }
  }

  lemma {:induction false} BelowOrUnread(space: seq<Region>, pos: nat)
    requires Sorted(space)
    ensures forall i :: 0 <= i < |space| ==> space[i].end <= pos || space[i] in From(space, pos)
  {
    Order(space);
    if space != [] && space[0].end <= pos { BelowOrUnread(space[1..], pos); }
  }

  lemma {:induction false} LastEndIsLast(listed: seq<Region>, from: nat)
    requires listed != []
    ensures LastEnd(listed, from) == listed[|listed| - 1].end
  {
    if |listed| > 1 { LastEndIsLast(listed[1..], listed[0].end); }
  }

  // Reserving the next gap replaces no mapping, and the space stays accounted for, whether or not it succeeds.
  lemma MapStep(regions: seq<Region>, reserved: seq<Range>, missed: seq<Range>, space: seq<Region>,
                next: Range, ok: bool, space': seq<Region>, begin: nat, end: nat)
    requires Sorted(regions) && reserved + [next] <= Gaps(regions, begin, end)
    requires Accounts(space, regions, reserved, missed)
    requires forall a :: Covered(space', a) <==> Covered(space, a) || (ok && next.Contains(a))
    ensures forall a :: next.Contains(a) ==> !Covered(space, a)
    ensures Accounts(space', regions, reserved + [next], missed + if ok then [] else [next])
  {
    var missed' := missed + if ok then [] else [next];
    forall a
      ensures next.Contains(a) ==> !Covered(space, a)
      ensures Covered(space', a) <==>
                Covered(regions, a) || (InRanges(reserved + [next], a) && !InRanges(missed', a))
    {
      InRangesAppend(reserved, [next], a);
      InRangesAppend(missed, if ok then [] else [next], a);
      InRangesOne(next, a);
      if next.Contains(a) {
        NextGapIsFree(regions, reserved, next, begin, end, a);
        assert forall i :: 0 <= i < |missed| ==> missed[i] in reserved;
      }
    }
  }

  lemma InRangesOne(r: Range, a: int)
    ensures InRanges([r], a) <==> r.Contains(a)
  {
    assert [r][0] == r;
  }

  // Reserves `[lo, hi)`, if that is not empty, and records it.
  method ReserveGap(k: Kernel, list: RegionList, lo: nat, hi: nat, ghost begin: nat, ghost end: nat)
    requires k.Valid() && list.Valid() && k !in list.Repr
    requires hi < WORD64 && k.Accounted() && list.pairs == k.reserved
    requires k.reserved + Gap(lo, hi) <= Gaps(k.original, begin, end)
    modifies k`space, k`reserved, k`missed, k`clobbered, list.Repr
    ensures k.Valid() && list.Valid() && fresh(list.Repr - old(list.Repr))
    ensures list.pairs == k.reserved == old(k.reserved) + Gap(lo, hi)
    ensures k.Accounted() && k.clobbered == old(k.clobbered)
    ensures old(k.UnreadIntact()) && (lo < hi ==> hi < k.pos) ==> k.UnreadIntact()
  {
    if hi > lo {
      MapGap(k, lo, hi, begin, end);
      list.Add(lo, hi - lo);
    }
  }

  method MapGap(k: Kernel, lo: nat, hi: nat, ghost begin: nat, ghost end: nat)
    requires k.Valid() && lo < hi < WORD64 && k.Accounted()
    requires k.reserved + Gap(lo, hi) <= Gaps(k.original, begin, end)
    modifies k`space, k`reserved, k`missed, k`clobbered
    ensures k.Valid() && k.reserved == old(k.reserved) + Gap(lo, hi)
    ensures k.Accounted() && k.clobbered == old(k.clobbered)
    ensures old(k.UnreadIntact()) && hi < k.pos ==> k.UnreadIntact()
  {
    ghost var space := k.space;
    ghost var reserved, missed := k.reserved, k.missed;
    var ok := k.MapFixed(lo, hi - lo);
    MapStep(k.original, reserved, missed, space, Range(lo, hi - lo), ok, k.space, begin, end);
    if ok && old(k.UnreadIntact()) && hi < k.pos {
      UnreadUnchanged(k.original, k.shown, space, k.space, lo, hi);
    }
  }

  lemma EndsAtLineStart(regions: seq<Region>, lo: nat, hi: nat)
    requires Sorted(regions) && Formatted(regions)
    ensures Run(INITIAL, Text(regions), lo, hi).mode == ParseBegin
  {
    ParseGivesGaps(regions, lo, hi);
  }

  lemma TextPrefix(regions: seq<Region>, shown: nat)
    requires shown <= |regions|
    ensures |Text(regions[..shown])| <= |Text(regions)|
  {
    assert regions[..shown] + regions[shown..] == regions;
    TextAppend(regions[..shown], regions[shown..]);
  }

  // `read` is what has been parsed of the text delivered; the buffer holds the rest of it at `cursor`.
  ghost predicate Buffered(k: Kernel, buffer: array<char>, cursor: int, remaining: int, read: string)
    reads k, buffer
  {
    && 0 <= cursor <= cursor + remaining <= buffer.Length
    && k.delivered == read + buffer[cursor..cursor + remaining]
  }

  // Reads until it gets something other than EAGAIN.
  method Refill(k: Kernel, buffer: array<char>) returns (n: nat)
    requires k.Valid() && k.UnreadIntact() && buffer.Length > 0
    modifies k`pos, k`pending, k`retries, k`shown, k`delivered, buffer
    ensures k.Valid() && k.UnreadIntact() && Buffered(k, buffer, 0, n, old(k.delivered))
    ensures n == 0 ==> old(k.delivered) == Text(k.original)
  {
    var r := k.Read(buffer);
    while r == -1
      invariant k.Valid() && k.UnreadIntact() && -1 <= r <= buffer.Length
      invariant k.delivered == if r == -1 then old(k.delivered) else old(k.delivered) + buffer[..r]
      invariant r == 0 ==> k.delivered == Text(k.original)
      decreases k.retries, if r == -1 then 1 else 0
    {
      r := k.Read(buffer);
    }
    n := r;
  }

  // End of file: the gap up to `end` is the last one.
  method AtEndOfFile(k: Kernel, list: RegionList, regionEnd: nat, begin: nat, end: nat)
    requires k.Valid() && list.Valid() && k !in list.Repr && Formatted(k.original) && end < WORD64
    requires k.Accounted() && list.pairs == k.reserved
    requires Run(INITIAL, Text(k.original), begin, end).regionEnd == regionEnd
    requires Run(INITIAL, Text(k.original), begin, end).reserved == k.reserved
    modifies k`space, k`reserved, k`missed, k`clobbered, list.Repr
    ensures k.Valid() && list.Valid() && fresh(list.Repr - old(list.Repr))
    ensures list.pairs == k.reserved == Gaps(k.original, begin, end)
    ensures k.Accounted() && k.clobbered == old(k.clobbered)
  {
    ParseGivesGaps(k.original, begin, end);
    ReserveGap(k, list, Max(regionEnd, begin), end, begin, end);
  }

  // A '-' read at the start of a line: the gap in front of the region that begins here.
  method AtDash(k: Kernel, list: RegionList, regionBegin: nat, regionEnd: nat, begin: nat, end: nat, ghost read: string)
    requires k.Valid() && list.Valid() && k !in list.Repr && Formatted(k.original) && end < WORD64
    requires k.UnreadIntact() && k.Accounted() && list.pairs == k.reserved
    requires read + "-" <= k.delivered
    requires Run(INITIAL, read, begin, end) == Parser(ParseBegin, regionBegin, regionEnd, k.reserved)
    modifies k`space, k`reserved, k`missed, k`clobbered, list.Repr
    ensures k.Valid() && list.Valid() && fresh(list.Repr - old(list.Repr))
    ensures k.UnreadIntact() && k.Accounted() && k.clobbered == old(k.clobbered) && list.pairs == k.reserved
    ensures Run(INITIAL, read + "-", begin, end) == Parser(ParseEnd, 0, 0, k.reserved)
  {
    var lo, hi := Max(regionEnd, begin), Min(regionBegin, end);
    RunSnoc(INITIAL, read, '-', begin, end);
    SplitAfter(read + "-", k.delivered, k.pending);
    ReservedSoFar(k.original, k.shown, read + "-", k.delivered[|read + "-"|..] + k.pending, begin, end);
    if hi > lo {
      assert (k.reserved + Gap(lo, hi))[|k.reserved|].End() == hi;
    }
    ReserveGap(k, list, lo, hi, begin, end);
  }

  // Parses one character; `read` is what came before it.
  method Parse(k: Kernel, list: RegionList, c: char, state: Mode, regionBegin: nat, regionEnd: nat,
               begin: nat, end: nat, ghost read: string)
    returns (state': Mode, regionBegin': nat, regionEnd': nat)
    requires k.Valid() && list.Valid() && k !in list.Repr && Formatted(k.original) && end < WORD64
    requires k.UnreadIntact() && k.Accounted() && list.pairs == k.reserved
    requires read + [c] <= k.delivered
    requires Run(INITIAL, read, begin, end) == Parser(state, regionBegin, regionEnd, k.reserved)
    modifies k`space, k`reserved, k`missed, k`clobbered, list.Repr
    ensures k.Valid() && list.Valid() && fresh(list.Repr - old(list.Repr))
    ensures k.UnreadIntact() && k.Accounted() && k.clobbered == old(k.clobbered) && list.pairs == k.reserved
    ensures Run(INITIAL, read + [c], begin, end) == Parser(state', regionBegin', regionEnd', k.reserved)
  {
    state', regionBegin', regionEnd' := state, regionBegin, regionEnd;
    if state == ScanEnd {
      if c == '\n' {
        state' := ParseBegin;
      }
    } else if state == ParseBegin {
      if c == '-' {
        AtDash(k, list, regionBegin, regionEnd, begin, end, read);
        regionBegin' := 0;
        regionEnd' := 0;
        state' := ParseEnd;
        return;
      } else {
        regionBegin' := Hex.Accumulate(regionBegin, c);
      }
    } else {
      if c == ' ' {
        state' := ScanEnd;
      } else {
        regionEnd' := Hex.Accumulate(regionEnd, c);
      }
    }
    RunSnoc(INITIAL, read, c, begin, end);
  }

  // Parses the character at `cursor`.
  method Advance(k: Kernel, list: RegionList, buffer: array<char>, cursor: nat, remaining: nat,
                 state: Mode, regionBegin: nat, regionEnd: nat, begin: nat, end: nat, ghost read: string)
    returns (state': Mode, regionBegin': nat, regionEnd': nat)
    requires k.Valid() && list.Valid() && k !in list.Repr && Formatted(k.original) && end < WORD64
    requires k.UnreadIntact() && k.Accounted() && list.pairs == k.reserved && buffer !in list.Repr
    requires remaining > 0 && Buffered(k, buffer, cursor, remaining, read)
    requires Run(INITIAL, read, begin, end) == Parser(state, regionBegin, regionEnd, k.reserved)
    modifies k`space, k`reserved, k`missed, k`clobbered, list.Repr
    ensures k.Valid() && list.Valid() && fresh(list.Repr - old(list.Repr))
    ensures k.UnreadIntact() && k.Accounted() && k.clobbered == old(k.clobbered) && list.pairs == k.reserved
    ensures |read| < |Text(k.original)|
    ensures Buffered(k, buffer, cursor + 1, remaining - 1, read + [buffer[cursor]])
    ensures Run(INITIAL, read + [buffer[cursor]], begin, end)
         == Parser(state', regionBegin', regionEnd', k.reserved)
  {
    TextPrefix(k.original, k.shown);
    assert buffer[cursor..cursor + remaining] == [buffer[cursor]] + buffer[cursor + 1..cursor + remaining];
    state', regionBegin', regionEnd' :=
      Parse(k, list, buffer[cursor], state, regionBegin, regionEnd, begin, end, read);
  }

  // Refills the buffer once it is used up; it then stays empty only at end of file, between two lines.
  method MoreInput(k: Kernel, buffer: array<char>, cursor: nat, remaining: nat, ghost read: string)
    returns (cursor': nat, remaining': nat)
    requires k.Valid() && k.UnreadIntact() && buffer.Length > 0 && Buffered(k, buffer, cursor, remaining, read)
    modifies k`pos, k`pending, k`retries, k`shown, k`delivered, buffer
    ensures k.Valid() && k.UnreadIntact() && Buffered(k, buffer, cursor', remaining', read)
    ensures remaining' == 0 ==> read == Text(k.original)
  {
    cursor', remaining' := cursor, remaining;
    if remaining == 0 {
      assert k.delivered == read;
      remaining' := Refill(k, buffer);
      cursor' := 0;
    }
  }

  // One turn of the loop over the listing: a character, or the end of the file.
  method Turn(k: Kernel, list: RegionList, buffer: array<char>, cursor: nat, remaining: nat,
              state: Mode, regionBegin: nat, regionEnd: nat, begin: nat, end: nat, ghost read: string)
    returns (done: bool, cursor': nat, remaining': nat, state': Mode, regionBegin': nat, regionEnd': nat,
             ghost read': string)
    requires k.Valid() && list.Valid() && k !in list.Repr && Formatted(k.original) && end < WORD64
    requires k.UnreadIntact() && k.Accounted() && list.pairs == k.reserved
    requires buffer.Length > 0 && buffer !in list.Repr && Buffered(k, buffer, cursor, remaining, read)
    requires Run(INITIAL, read, begin, end) == Parser(state, regionBegin, regionEnd, k.reserved)
    modifies k, list.Repr, buffer
    ensures k.Valid() && list.Valid() && fresh(list.Repr - old(list.Repr))
    ensures k.Accounted() && k.clobbered == old(k.clobbered) && list.pairs == k.reserved
    ensures done ==> k.reserved == Gaps(k.original, begin, end)
    ensures !done ==>
              && k.UnreadIntact() && |read| < |read'| <= |Text(k.original)|
              && Buffered(k, buffer, cursor', remaining', read')
              && Run(INITIAL, read', begin, end) == Parser(state', regionBegin', regionEnd', k.reserved)
  {
    done, state', regionBegin', regionEnd', read' := false, state, regionBegin, regionEnd, read;
    cursor', remaining' := MoreInput(k, buffer, cursor, remaining, read);
    EndsAtLineStart(k.original, begin, end);
    if remaining' == 0 && state == ParseBegin {
      AtEndOfFile(k, list, regionEnd, begin, end);
      done := true;
      return;
    }
    read' := read + [buffer[cursor']];
    state', regionBegin', regionEnd' :=
      Advance(k, list, buffer, cursor', remaining', state, regionBegin, regionEnd, begin, end, read);
    cursor', remaining' := cursor' + 1, remaining' - 1;
  }

  // The loop over the listing.
  method Scan(k: Kernel, list: RegionList, buffer: array<char>, begin: nat, end: nat)
    requires begin < WORD64 && end < WORD64 && buffer.Length > 0
    requires k.Valid() && k.AtStart() && k.UnreadIntact() && k.Accounted() && Formatted(k.original)
    requires list.Valid() && list.pairs == [] && k !in list.Repr && buffer !in list.Repr
    modifies k, list.Repr, buffer
    ensures list.Valid() && list.pairs == k.reserved == Gaps(k.original, begin, end)
    ensures k.Valid() && k.Accounted() && !k.clobbered
  {
    var done, state := false, ParseBegin;
    var regionBegin: nat, regionEnd: nat, cursor: nat, remaining: nat := 0, 0, 0, 0;
    ghost var read := "";
    while !done
      invariant list.Valid() && fresh(list.Repr - old(list.Repr)) && k !in list.Repr && buffer !in list.Repr
      invariant k.Valid() && k.Accounted() && !k.clobbered && list.pairs == k.reserved
      invariant done ==> k.reserved == Gaps(k.original, begin, end)
      invariant !done ==>
                  && k.UnreadIntact() && Buffered(k, buffer, cursor, remaining, read)
                  && Run(INITIAL, read, begin, end) == Parser(state, regionBegin, regionEnd, k.reserved)
      decreases !done, |Text(k.original)| - |read|
    {
      done, cursor, remaining, state, regionBegin, regionEnd, read :=
        Turn(k, list, buffer, cursor, remaining, state, regionBegin, regionEnd, begin, end, read);
    }
  }

  method StealMemoryRegion(k: Kernel, begin: nat, end: nat) returns (list: RegionList)
    requires begin < WORD64 && end < WORD64
    requires k.Valid() && k.AtStart() && k.UnreadIntact() && k.Accounted() && Formatted(k.original)
    modifies k
    ensures list.Valid() && list.pairs == k.reserved == Gaps(k.original, begin, end)
    ensures k.Valid() && k.Accounted() && !k.clobbered
    ensures (forall a :: begin <= a < end ==> Covered(k.space, a)) <==> k.missed == []
    ensures begin > 0 ==> forall i :: 0 <= i < |list.pairs| ==> list.pairs[i].begin > 0
    ensures list.StoresFit(66)
    ensures list.StoresFit(33) <==> |Gaps(k.original, begin, end)| <= 16
  {
    list := new RegionList();
    var buffer := new char[2048];
    Scan(k, list, buffer, begin, end);
    list.DeclaredBucketHoldsSixteen();
    GapsSeparated(k.original, begin, end);
    MappedIff(k.space, k.original, k.missed, begin, end);
  }

  // The program does not look at what mmap returns; the interval ends up mapped exactly if no call failed.
  lemma MappedIff(space: seq<Region>, regions: seq<Region>, missed: seq<Range>, begin: nat, end: nat)
    requires Sorted(regions) && Accounts(space, regions, Gaps(regions, begin, end), missed)
    ensures (forall a :: begin <= a < end ==> Covered(space, a)) <==> missed == []
  {
    if missed == [] {
      forall a | begin <= a < end ensures Covered(space, a) {
        GapsPartition(regions, begin, end, a);
      }
    } else {
      var r := missed[0];
      assert r in Gaps(regions, begin, end);
      GapsSeparated(regions, begin, end);
      GapsPartition(regions, begin, end, r.begin);
      assert r.Contains(r.begin) && InRanges(missed, r.begin);
    }
  }

  // The call the program makes.
  method Steal(k: Kernel) returns (list: RegionList)
    requires k.Valid() && k.AtStart() && k.UnreadIntact() && k.Accounted() && Formatted(k.original)
    modifies k
    ensures list.Valid() && list.pairs == Gaps(k.original, 0x1_0000, 0x7fff_ffff_f000) && !k.clobbered
    ensures (forall a :: 0x1_0000 <= a < 0x7fff_ffff_f000 ==> Covered(k.space, a)) <==> k.missed == []
    ensures list.StoresFit(33) <==> |Gaps(k.original, 0x1_0000, 0x7fff_ffff_f000)| <= 16
  {
    list := StealMemoryRegion(k, 0x1_0000, 0x8000_0000_0000 - 4 * 1024);
  }

  function OnePage(b: nat): Region {
    Region(b, b + 0x1000, Line(b, 0, b + 0x1000, 0, ""))
  }

  // One-page regions, with a free page in front of each.
  function EveryOtherPage(n: nat, at: nat): seq<Region> {
    if n == 0 then [] else [OnePage(at + 0x1000)] + EveryOtherPage(n - 1, at + 0x2000)
  }

  lemma {:induction false} EveryOtherPageAt(n: nat, at: nat, i: nat)
    requires i < n
    ensures |EveryOtherPage(n, at)| == n && EveryOtherPage(n, at)[i] == OnePage(at + 0x1000 + 0x2000 * i)
  {
    if i > 0 {
      EveryOtherPageAt(n - 1, at + 0x2000, i - 1);
    } else if n > 1 {
      EveryOtherPageAt(n - 1, at + 0x2000, 0);
    }
  }

  // There is one more gap than there are regions.
  lemma {:induction false} EveryOtherPageGaps(n: nat, at: nat, hi: nat)
    requires at + 0x2000 * n < hi
    ensures |Gaps(EveryOtherPage(n, at), at, hi)| == n + 1
  {
    if n > 0 {
      EveryOtherPageGaps(n - 1, at + 0x2000, hi);
      assert EveryOtherPage(n, at)[1..] == EveryOtherPage(n - 1, at + 0x2000);
    }
  }

  // Listings with any number of gaps from one up exist, among them one of sixteen regions and seventeen gaps,
  // on which the program's stores do not fit the declared bucket.
  lemma ListingWithGaps(n: nat) returns (regions: seq<Region>)
    requires n < 0x1_0000_0000
    ensures Sorted(regions) && Formatted(regions) && |regions| == n
    ensures |Gaps(regions, 0x1_0000, 0x7fff_ffff_f000)| == n + 1
  {
    regions := EveryOtherPage(n, 0x1_0000);
    forall i | 0 <= i < n
      ensures |regions| == n && regions[i] == OnePage(0x1_1000 + 0x2000 * i) && HasLine(regions[i])
    {
      EveryOtherPageAt(n, 0x1_0000, i);
    }
    EveryOtherPageGaps(n, 0x1_0000, 0x7fff_ffff_f000);
  }
}
