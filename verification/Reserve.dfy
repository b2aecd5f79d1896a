/** reserve-address-space.cpp: fills the free address space with blocks of halving size. */
module Reserve {
  import opened Words

  const PAGE_SIZE := 4096

  /** A maximal run of free pages. */
  datatype Gap = Gap(start: nat, pages: nat)

  datatype Errno = ENOMEM | EPERM | OtherErrno

  datatype MmapResult = Mapped(page: nat) | MapFailed(errno: Errno)

  function Pow2(n: nat): (r: nat)
    ensures r >= 1
  {
    if n == 0 then 1 else 2 * Pow2(n - 1)
  }

  function PopCount(n: nat): nat {
    if n == 0 then 0 else n % 2 + PopCount(n / 2)
  }

  /** What of a gap is to be added up. */
  datatype Measure = Pages | Fits(n: nat) | Blocks(k: nat)

  function Weigh(m: Measure, pages: nat): nat {
    match m
    case Pages => pages
    case Fits(n) => if pages >= n then 1 else 0
    case Blocks(k) => GreedyBlocks(pages, k)
  }

  // How many blocks of 2^k pages, then of 2^(k-1) pages, and so on down to one page, a gap takes.
  function GreedyBlocks(pages: nat, k: nat): nat
    decreases k, pages
  {
    if pages >= Pow2(k) then 1 + GreedyBlocks(pages - Pow2(k), k)
    else if k == 0 then 0
    else GreedyBlocks(pages, k - 1)
  }

  function Total(m: Measure, gaps: seq<Gap>): nat {
    if gaps == [] then 0 else Weigh(m, gaps[0].pages) + Total(m, gaps[1..])
  }

  lemma {:induction false} TotalAppend(m: Measure, a: seq<Gap>, b: seq<Gap>)
    ensures Total(m, a + b) == Total(m, a) + Total(m, b)
  {
    if a == [] {
      assert a + b == b;
    } else {
      assert (a + b)[1..] == a[1..] + b;
      TotalAppend(m, a[1..], b);
    }
  }

  lemma {:induction false} TotalNone(m: Measure, gaps: seq<Gap>)
    requires m.Fits? && forall i :: 0 <= i < |gaps| ==> gaps[i].pages < m.n
    ensures Total(m, gaps) == 0
  {
    if gaps != [] { TotalNone(m, gaps[1..]); }
  }

  // Once no gap holds a block of 2^k pages, that size can be skipped.
  lemma {:induction false} TotalHalve(k: nat, gaps: seq<Gap>)
    requires k > 0 && forall i :: 0 <= i < |gaps| ==> gaps[i].pages < Pow2(k)
    ensures Total(Blocks(k), gaps) == Total(Blocks(k - 1), gaps)
  {
    if gaps != [] { TotalHalve(k, gaps[1..]); }
  }

  lemma {:induction false} PopCountTopBit(g: nat, k: nat)
    requires g < Pow2(k)
    ensures PopCount(Pow2(k) + g) == 1 + PopCount(g)
  {
    if k > 0 {
      PopCountTopBit(g / 2, k - 1);
      assert (Pow2(k) + g) / 2 == Pow2(k - 1) + g / 2;
    } else {
      assert PopCount(1) == 1 + PopCount(0);
    }
  }

  lemma DivModMinus(g: nat, d: nat)
    requires 0 < d <= g
    ensures g / d == (g - d) / d + 1 && g % d == (g - d) % d
  {
    var q, r := (g - d) / d, (g - d) % d;
    assert g - d == d * q + r;
    assert g == d * (q + 1) + r;
    DivModUnique(g, d, q + 1, r);
  }

  lemma DivModUnique(g: nat, d: nat, q: nat, r: nat)
    requires 0 < d && g == d * q + r && r < d
    ensures g / d == q && g % d == r
  {
    var q' := g / d;
    if q < q' {
      MulMonotone(d, q + 1, q');
    } else if q' < q {
      MulMonotone(d, q' + 1, q);
    }
  }

  lemma MulMonotone(d: nat, x: nat, y: nat)
    requires x <= y
    ensures d * x <= d * y
  {}

  // A gap takes as many blocks as its size in binary has ones, counting every 2^k-page block on top.
  lemma {:induction false} GreedyIsPopCount(g: nat, k: nat)
    ensures GreedyBlocks(g, k) == g / Pow2(k) + PopCount(g % Pow2(k))
    decreases k, g
  {
    var p := Pow2(k);
    if g >= p {
      GreedyIsPopCount(g - p, k);
      DivModMinus(g, p);
    } else {
      DivModUnique(g, p, 0, g);
      if k > 0 {
        var h := Pow2(k - 1);
        GreedyIsPopCount(g, k - 1);
        if g < h {
          DivModUnique(g, h, 0, g);
        } else {
          DivModUnique(g, h, 1, g - h);
          PopCountTopBit(g - h, k - 1);
        }
      }
    }
  }

  predicate Below(h: Gap, g: Gap) { h.start + h.pages < g.start }

  // Non-empty and ascending, with something mapped between any two.
  ghost predicate Separated(gaps: seq<Gap>) {
    && (forall i :: 0 <= i < |gaps| ==> gaps[i].pages > 0)
    && (forall i, j {:trigger Below(gaps[i], gaps[j])} :: 0 <= i < j < |gaps| ==> Below(gaps[i], gaps[j]))
  }

  // `Separated`, unfolded for proofs to use.
  lemma Order(gaps: seq<Gap>)
    requires Separated(gaps)
    ensures forall i, j :: 0 <= i < j < |gaps| ==> gaps[i].start + gaps[i].pages < gaps[j].start
  {
    forall i, j | 0 <= i < j < |gaps| ensures gaps[i].start + gaps[i].pages < gaps[j].start {
      assert Below(gaps[i], gaps[j]);
    }
  }

  ghost predicate Free(gaps: seq<Gap>, p: int) {
    exists i :: 0 <= i < |gaps| && gaps[i].start <= p < gaps[i].start + gaps[i].pages
  }

  ghost predicate FreeRun(gaps: seq<Gap>, s: int, n: nat) {
    forall p :: s <= p < s + n ==> Free(gaps, p)
  }

  // Some `n` consecutive pages are free just if some gap has that many.
  lemma FitsIffSomeGapFits(gaps: seq<Gap>, n: nat)
    requires Separated(gaps) && n > 0
    ensures (exists s :: FreeRun(gaps, s, n)) <==> (exists i :: 0 <= i < |gaps| && gaps[i].pages >= n)
  {
    Order(gaps);
    if s :| FreeRun(gaps, s, n) {
      assert Free(gaps, s);
      var i :| 0 <= i < |gaps| && gaps[i].start <= s < gaps[i].start + gaps[i].pages;
      assert !Free(gaps, gaps[i].start + gaps[i].pages);
    }
    if i :| 0 <= i < |gaps| && gaps[i].pages >= n {
      assert FreeRun(gaps, gaps[i].start, n);
    }
  }

  function Piece(start: nat, pages: nat): seq<Gap> {
    if pages > 0 then [Gap(start, pages)] else []
  }

  // Gap `i` with `n` pages taken out, `offset` pages in.
  function Split(gaps: seq<Gap>, i: nat, offset: nat, n: nat): seq<Gap>
    requires i < |gaps| && offset + n <= gaps[i].pages
  {
    var g := gaps[i];
    gaps[..i] + Piece(g.start, offset) + Piece(g.start + offset + n, g.pages - offset - n) + gaps[i + 1..]
  }

  // `gaps'` is what is left of `gaps` once `n` free pages are taken at `page`.
  ghost predicate Placed(gaps: seq<Gap>, n: nat, page: nat, gaps': seq<Gap>, atEnd: bool) {
    exists i: nat, offset: nat ::
      && i < |gaps| && offset + n <= gaps[i].pages && page == gaps[i].start + offset
      && (atEnd ==> offset == 0 || offset + n == gaps[i].pages)
      && gaps' == Split(gaps, i, offset, n)
  }

  predicate Inside(h: Gap, g: Gap) {
    g.start <= h.start && h.start + h.pages <= g.start + g.pages
  }

  ghost predicate Within(h: Gap, gaps: seq<Gap>) {
    exists g :: g in gaps && Inside(h, g)
  }

  predicate Disjoint(h: Gap, g: Gap) {
    h.start + h.pages <= g.start || g.start + g.pages <= h.start
  }

  lemma SplitSeparated(gaps: seq<Gap>, i: nat, offset: nat, n: nat)
    requires Separated(gaps) && n > 0 && i < |gaps| && offset + n <= gaps[i].pages
    ensures Separated(Split(gaps, i, offset, n))
  {
    Order(gaps);
    var g := gaps[i];
    var left, right := Piece(g.start, offset), Piece(g.start + offset + n, g.pages - offset - n);
    SeparatedAppend(gaps[..i], left, g.start);
    SeparatedAppend(gaps[..i] + left, right, g.start + offset + n);
    SeparatedAppend(gaps[..i] + left + right, gaps[i + 1..], g.start + g.pages + 1);
  }

  lemma SeparatedAppend(a: seq<Gap>, b: seq<Gap>, mid: nat)
    requires Separated(a) && Separated(b)
    requires forall i :: 0 <= i < |a| ==> a[i].start + a[i].pages < mid
    requires forall i :: 0 <= i < |b| ==> mid <= b[i].start
    ensures Separated(a + b)
  {}

  // What is free after a split was free before, in one gap, and does not touch the block.
  lemma SplitInside(gaps: seq<Gap>, i: nat, offset: nat, n: nat, h: Gap)
    requires Separated(gaps) && i < |gaps| && offset + n <= gaps[i].pages && h in Split(gaps, i, offset, n)
    ensures Disjoint(Gap(gaps[i].start + offset, n), h)
    ensures Within(h, gaps)
  {
    Order(gaps);
    if h in gaps[..i] || h in gaps[i + 1..] {
      assert h in gaps && Inside(h, h);
    } else {
      assert gaps[i] in gaps && Inside(h, gaps[i]);
    }
  }

  lemma TotalSplit(m: Measure, gaps: seq<Gap>, i: nat, offset: nat, n: nat)
    requires i < |gaps| && offset + n <= gaps[i].pages && Weigh(m, 0) == 0
    ensures Total(m, Split(gaps, i, offset, n)) + Weigh(m, gaps[i].pages)
         == Total(m, gaps) + Weigh(m, offset) + Weigh(m, gaps[i].pages - offset - n)
  {
    var g := gaps[i];
    TotalFour(m, gaps[..i], Piece(g.start, offset), Piece(g.start + offset + n, g.pages - offset - n), gaps[i + 1..]);
    TotalPiece(m, g.start, offset);
    TotalPiece(m, g.start + offset + n, g.pages - offset - n);
    TotalAround(m, gaps, i);
  }

  lemma TotalAround(m: Measure, gaps: seq<Gap>, i: nat)
    requires i < |gaps|
    ensures Total(m, gaps) == Total(m, gaps[..i]) + Weigh(m, gaps[i].pages) + Total(m, gaps[i + 1..])
  {
    TotalAppend(m, gaps[..i], gaps[i..]);
    assert gaps == gaps[..i] + gaps[i..];
    assert gaps[i..][1..] == gaps[i + 1..];
  }

  lemma TotalFour(m: Measure, a: seq<Gap>, b: seq<Gap>, c: seq<Gap>, d: seq<Gap>)
    ensures Total(m, a + b + c + d) == Total(m, a) + Total(m, b) + Total(m, c) + Total(m, d)
  {
    TotalAppend(m, a + b + c, d);
    TotalAppend(m, a + b, c);
    TotalAppend(m, a, b);
  }

  lemma TotalPiece(m: Measure, start: nat, pages: nat)
    requires Weigh(m, 0) == 0
    ensures Total(m, Piece(start, pages)) == Weigh(m, pages)
  {
    assert [Gap(start, pages)][1..] == [];
  }

  ghost predicate Smaller(gaps: seq<Gap>, n: nat) {
    forall i :: 0 <= i < |gaps| ==> gaps[i].pages < n
  }

  // What one successful mmap does to any total: a gap of `a + n + b` pages becomes two of `a` and `b` pages.
  lemma PlacedTotal(m: Measure, gaps: seq<Gap>, n: nat, page: nat, gaps': seq<Gap>, atEnd: bool)
    returns (a: nat, b: nat)
    requires Separated(gaps) && n > 0 && Placed(gaps, n, page, gaps', atEnd) && Weigh(m, 0) == 0
    ensures Separated(gaps') && (atEnd ==> a == 0 || b == 0)
    ensures exists i :: 0 <= i < |gaps| && gaps[i].pages == a + n + b
    ensures Total(m, gaps') + Weigh(m, a + n + b) == Total(m, gaps) + Weigh(m, a) + Weigh(m, b)
  {
    var i: nat, offset: nat :|
      && i < |gaps| && offset + n <= gaps[i].pages && page == gaps[i].start + offset
      && (atEnd ==> offset == 0 || offset + n == gaps[i].pages)
      && gaps' == Split(gaps, i, offset, n);
    a, b := offset, gaps[i].pages - offset - n;
    assert gaps[i].pages == a + n + b;
    SplitSeparated(gaps, i, offset, n);
    TotalSplit(m, gaps, i, offset, n);
  }

  lemma PlacedTotals(gaps: seq<Gap>, k: nat, page: nat, gaps': seq<Gap>, atEnd: bool)
    requires Separated(gaps) && Placed(gaps, Pow2(k), page, gaps', atEnd)
    ensures Separated(gaps')
    ensures Total(Pages, gaps') + Pow2(k) == Total(Pages, gaps)
    ensures atEnd ==> Total(Blocks(k), gaps') + 1 == Total(Blocks(k), gaps)
    ensures Smaller(gaps, 2 * Pow2(k)) ==> Total(Fits(Pow2(k)), gaps') + 1 == Total(Fits(Pow2(k)), gaps)
  {
    var a, b := PlacedTotal(Pages, gaps, Pow2(k), page, gaps', atEnd);
    a, b := PlacedTotal(Fits(Pow2(k)), gaps, Pow2(k), page, gaps', atEnd);
    if atEnd { PlacedBlocks(gaps, k, page, gaps'); }
  }

  lemma PlacedBlocks(gaps: seq<Gap>, k: nat, page: nat, gaps': seq<Gap>)
    requires Separated(gaps) && Placed(gaps, Pow2(k), page, gaps', true)
    ensures Total(Blocks(k), gaps') + 1 == Total(Blocks(k), gaps)
  {
    GreedyNothing(k);
    var a, b := PlacedTotal(Blocks(k), gaps, Pow2(k), page, gaps', true);
  }

  // Where the block and the remaining gaps are.
  lemma PlacedInside(gaps: seq<Gap>, n: nat, page: nat, gaps': seq<Gap>, atEnd: bool)
    requires Separated(gaps) && Placed(gaps, n, page, gaps', atEnd)
    ensures Within(Gap(page, n), gaps)
    ensures forall h :: h in gaps' ==> Disjoint(Gap(page, n), h)
    ensures forall h :: h in gaps' ==> Within(h, gaps)
  {
    var i: nat, offset: nat :|
      && i < |gaps| && offset + n <= gaps[i].pages && page == gaps[i].start + offset
      && (atEnd ==> offset == 0 || offset + n == gaps[i].pages)
      && gaps' == Split(gaps, i, offset, n);
    assert gaps[i] in gaps && Inside(Gap(page, n), gaps[i]);
    forall h | h in gaps'
      ensures Disjoint(Gap(page, n), h) && Within(h, gaps)
    {
      SplitInside(gaps, i, offset, n, h);
    }
  }

  lemma {:induction false} GreedyNothing(k: nat)
    ensures GreedyBlocks(0, k) == 0
  {
    if k > 0 { GreedyNothing(k - 1); }
  }

  // mmap rounds a length up to whole pages.
  function PagesFor(len: nat): nat { (len + PAGE_SIZE - 1) / PAGE_SIZE }

  /** Free address space, and a kernel that may place a block anywhere it fits. */
  class AddressSpace {
    var gaps: seq<Gap>
    const atEnd: bool    // blocks are only placed at an end of a gap
    const faulty: bool   // mmap may also fail for other reasons
    ghost var broken: bool  // and has

    constructor (gaps: seq<Gap>, atEnd: bool, faulty: bool)
      requires Separated(gaps)
      ensures this.gaps == gaps && this.atEnd == atEnd && this.faulty == faulty && !broken
    {
      this.gaps, this.atEnd, this.faulty, broken := gaps, atEnd, faulty, false;
    }

    method Mmap(len: nat) returns (result: MmapResult)
      requires Separated(gaps) && len > 0
      modifies this
      ensures var n := PagesFor(len);
              match result
              case Mapped(page) => Placed(old(gaps), n, page, gaps, atEnd)
              case MapFailed(errno) =>
                && gaps == old(gaps) && (errno == OtherErrno ==> faulty)
                && (errno != OtherErrno ==> forall i :: 0 <= i < |gaps| ==> gaps[i].pages < n)
      ensures broken <==> old(broken) || result == MapFailed(OtherErrno)
    {
      var n := PagesFor(len);
      var fail: bool := *;
      if faulty && fail {
        broken := true;
        return MapFailed(OtherErrno);
      }
      if exists i :: 0 <= i < |gaps| && gaps[i].pages >= n {
        var i: nat :| i < |gaps| && gaps[i].pages >= n;
        var offset: nat := gaps[i].pages - n;
        var low: bool := *;
        if low {
          offset := 0;
        } else if !atEnd {
          var inner: nat :| inner <= gaps[i].pages - n;
          offset := inner;
        }
        result := Mapped(gaps[i].start + offset);
        gaps := Split(gaps, i, offset, n);
      } else {
        var perm: bool := *;
        return MapFailed(if perm then EPERM else ENOMEM);
      }
    }
  }

  // The blocks of `n` pages at `placed` lie in free pages of `gaps`, apart from one another and from `left`.
  ghost predicate Apart(placed: seq<nat>, n: nat, gaps: seq<Gap>, left: seq<Gap>) {
    && (forall i :: 0 <= i < |placed| ==> Within(Gap(placed[i], n), gaps))
    && (forall i, j {:trigger Disjoint(Gap(placed[i], n), Gap(placed[j], n))} ::
          0 <= i < j < |placed| ==> Disjoint(Gap(placed[i], n), Gap(placed[j], n)))
    && (forall i, h {:trigger Disjoint(Gap(placed[i], n), h)} ::
          0 <= i < |placed| && h in left ==> Disjoint(Gap(placed[i], n), h))
    && (forall h {:trigger Within(h, gaps)} :: h in left ==> Within(h, gaps))
  }

  lemma ApartStart(n: nat, gaps: seq<Gap>)
    ensures Apart([], n, gaps, gaps)
  {
    forall h | h in gaps ensures Within(h, gaps) {
      assert Inside(h, h);
    }
  }

  lemma ApartStep(placed: seq<nat>, n: nat, gaps: seq<Gap>, left: seq<Gap>, page: nat, left': seq<Gap>, atEnd: bool)
    requires Separated(left) && Apart(placed, n, gaps, left) && Placed(left, n, page, left', atEnd)
    ensures Apart(placed + [page], n, gaps, left')
  {
    PlacedInside(left, n, page, left', atEnd);
    var placed' := placed + [page];
    forall h | h in left' + [Gap(page, n)]
      ensures Within(h, gaps)
      ensures forall i :: 0 <= i < |placed| ==> Disjoint(Gap(placed[i], n), h)
    {
      assert h in left' || h == Gap(page, n);
      assert Within(h, left);
      var m :| m in left && Inside(h, m);
      assert Within(m, gaps) && forall i :: 0 <= i < |placed| ==> Disjoint(Gap(placed[i], n), m);
      var g :| g in gaps && Inside(m, g);
      assert Inside(h, g);
    }
    assert Gap(page, n) in left' + [Gap(page, n)];
    assert forall h :: h in left' ==> h in left' + [Gap(page, n)];
  }

  // No two blocks lie in the same one of `gaps`.
  ghost predicate InDistinctGaps(placed: seq<nat>, n: nat, gaps: seq<Gap>) {
    forall i, j, g ::
      0 <= i < j < |placed| && g in gaps && Inside(Gap(placed[i], n), g) ==> !Inside(Gap(placed[j], n), g)
  }

  lemma ApartIsDistinct(placed: seq<nat>, n: nat, gaps: seq<Gap>, left: seq<Gap>)
    requires Apart(placed, n, gaps, left) && Smaller(gaps, 2 * n)
    ensures InDistinctGaps(placed, n, gaps)
  {
    assert forall i, j :: 0 <= i < j < |placed| ==> Disjoint(Gap(placed[i], n), Gap(placed[j], n));
  }

  /** A round of the outer loop: its blocks of 2^k pages, and the gaps before and after it. */
  datatype Round = Round(k: nat, before: seq<Gap>, placed: seq<nat>, left: seq<Gap>) {
    function Size(): nat { Pow2(k) }
  }

  // A round, as far as the inner loop has got.
  ghost predicate Progress(r: Round, atEnd: bool) {
    && Separated(r.left) && Apart(r.placed, r.Size(), r.before, r.left)
    && Total(Pages, r.before) == Total(Pages, r.left) + |r.placed| * r.Size()
    && (atEnd ==> Total(Blocks(r.k), r.before) == Total(Blocks(r.k), r.left) + |r.placed|)
    && (Smaller(r.before, 2 * r.Size()) ==>
          Total(Fits(r.Size()), r.before) == Total(Fits(r.Size()), r.left) + |r.placed|)
  }

  // The round took one block from each gap that held one, and none from the others.
  ghost predicate OneEach(r: Round) {
    && (forall p :: p in r.placed ==> Within(Gap(p, r.Size()), r.before))
    && InDistinctGaps(r.placed, r.Size(), r.before)
    && |r.placed| == Total(Fits(r.Size()), r.before)
  }

  // No gap holds a block any more; and if none held two, each that held one gave it.
  ghost predicate Finished(r: Round) {
    Smaller(r.left, r.Size()) && (Smaller(r.before, 2 * r.Size()) ==> OneEach(r))
  }

  lemma ProgressStart(k: nat, gaps: seq<Gap>, atEnd: bool)
    requires Separated(gaps)
    ensures Progress(Round(k, gaps, [], gaps), atEnd)
  {
    ApartStart(Pow2(k), gaps);
  }

  lemma ProgressStep(r: Round, page: nat, left: seq<Gap>, atEnd: bool)
    requires Progress(r, atEnd) && Placed(r.left, r.Size(), page, left, atEnd)
    ensures Progress(r.(placed := r.placed + [page], left := left), atEnd)
    ensures Total(Pages, left) + r.Size() == Total(Pages, r.left)
  {
    PlacedTotals(r.left, r.k, page, left, atEnd);
    ApartStep(r.placed, r.Size(), r.before, r.left, page, left, atEnd);
    if Smaller(r.before, 2 * r.Size()) {
      SmallerLeft(r.before, r.placed, r.Size(), r.left);
    }
    OneMore(|r.placed|, r.Size());
  }

  lemma OneMore(blocks: nat, n: nat)
    ensures (blocks + 1) * n == blocks * n + n
  {}

  lemma ProgressDone(r: Round, atEnd: bool)
    requires Progress(r, atEnd) && Smaller(r.left, r.Size())
    ensures Finished(r)
  {
    if !Smaller(r.before, 2 * r.Size()) { return; }
    ApartIsDistinct(r.placed, r.Size(), r.before, r.left);
    TotalNone(Fits(r.Size()), r.left);
    forall p | p in r.placed ensures Within(Gap(p, r.Size()), r.before) {
      var i :| 0 <= i < |r.placed| && r.placed[i] == p;
    }
  }

  lemma SmallerLeft(gaps: seq<Gap>, placed: seq<nat>, n: nat, left: seq<Gap>)
    requires Apart(placed, n, gaps, left) && Smaller(gaps, 2 * n)
    ensures Smaller(left, 2 * n)
  {
    forall i | 0 <= i < |left| ensures left[i].pages < 2 * n {
      assert left[i] in left;
      assert Within(left[i], gaps);
      var g :| g in gaps && Inside(left[i], g);
    }
  }

  // A byte count with `pages` more pages, in 64 bits.
  function AddPages(total: nat, pages: int): nat { (total + PAGE_SIZE * pages) % WORD64 }

  lemma AddPagesTwice(total: nat, x: nat, y: nat)
    ensures AddPages(AddPages(total, x), y) == AddPages(total, x + y)
  {}

  lemma OneMoreBlock(total: nat, blocks: nat, n: nat)
    ensures AddPages(total, (blocks + 1) * n) == (AddPages(total, blocks * n) + PAGE_SIZE * n) % WORD64
  {
    AddPagesTwice(total, blocks * n, n);
    OneMore(blocks, n);
  }

  // One more block of the round, if there is room for it.
  method Take(space: AddressSpace, allocLen: nat, ghost r: Round)
    returns (result: MmapResult, ghost r': Round)
    requires allocLen == PAGE_SIZE * r.Size() && space.gaps == r.left && Progress(r, space.atEnd)
    modifies space
    ensures space.gaps == r'.left && Progress(r', space.atEnd)
    ensures match result
            case Mapped(page) =>
              && r' == r.(placed := r.placed + [page], left := r'.left)
              && Total(Pages, r'.left) < Total(Pages, r.left)
            case MapFailed(errno) =>
              r' == r && if errno == OtherErrno then space.faulty else Smaller(r.left, r.Size())
    ensures space.broken <==> old(space.broken) || result == MapFailed(OtherErrno)
  {
    assert PagesFor(allocLen) == r.Size();
    result := space.Mmap(allocLen);
    r' := r;
    if result.Mapped? {
      ProgressStep(r, result.page, space.gaps, space.atEnd);
      r' := r.(placed := r.placed + [result.page], left := space.gaps);
    }
  }

  // The inner loop: blocks of 2^k pages until no gap is large enough.
  method Fill(space: AddressSpace, allocLen: nat, total: nat, ghost k: nat)
    returns (error: bool, total': nat, ghost round: Round)
    requires Separated(space.gaps) && allocLen == PAGE_SIZE * Pow2(k) && total < WORD64 && !space.broken
    modifies space
    ensures round == Round(k, old(space.gaps), round.placed, space.gaps) && Progress(round, space.atEnd)
    ensures total' == AddPages(total, |round.placed| * Pow2(k))
    ensures (error <==> space.broken) && (error ==> space.faulty) && (!error ==> Finished(round))
  {
    error, total', round := false, total, Round(k, space.gaps, [], space.gaps);
    ProgressStart(k, space.gaps, space.atEnd);
    while true
      invariant round == Round(k, old(space.gaps), round.placed, space.gaps) && Progress(round, space.atEnd)
      invariant total' == AddPages(total, |round.placed| * Pow2(k)) && !space.broken
      decreases Total(Pages, space.gaps)
    {
      OneMoreBlock(total, |round.placed|, Pow2(k));
      var result: MmapResult;
      result, round := Take(space, allocLen, round);
      if result.MapFailed? {
        if result.errno != ENOMEM && result.errno != EPERM {
          error := true;
        } else {
          ProgressDone(round, space.atEnd);
        }
        return;
      }
      total' := (total' + allocLen) % WORD64;
    }
  }

  lemma {:induction false} Pow2Add(a: nat, b: nat)
    ensures Pow2(a + b) == Pow2(a) * Pow2(b)
  {
    if a > 0 {
      Pow2Add(a - 1, b);
      assert Pow2(a + b) == 2 * (Pow2(a - 1) * Pow2(b));
    }
  }

  function BlocksPlaced(rounds: seq<Round>): nat {
    if rounds == [] then 0 else BlocksPlaced(rounds[..|rounds| - 1]) + |rounds[|rounds| - 1].placed|
  }

  function GapsAfter(rounds: seq<Round>, gaps: seq<Gap>): seq<Gap> {
    if rounds == [] then gaps else rounds[|rounds| - 1].left
  }

  // Round `i` starts with what the one before it left, with blocks half the size. No gap is then twice the
  // block size or more, and each that holds a block gets one.
  ghost predicate RoundDone(rounds: seq<Round>, i: nat, order: nat, gaps: seq<Gap>)
    requires i < |rounds| <= order + 1
  {
    var r := rounds[i];
    && r.k == order - i && r.before == GapsAfter(rounds[..i], gaps)
    && Apart(r.placed, r.Size(), r.before, r.left) && Finished(r)
    && (i > 0 ==> Smaller(r.before, 2 * r.Size()) && OneEach(r))
  }

  // The rounds so far, of blocks of 2^order pages and smaller, from `gaps` on.
  ghost predicate History(rounds: seq<Round>, order: nat, gaps: seq<Gap>) {
    && |rounds| <= order + 1
    && forall i {:trigger RoundDone(rounds, i, order, gaps)} :: 0 <= i < |rounds| ==> RoundDone(rounds, i, order, gaps)
  }

  lemma RoundStaysDone(rounds: seq<Round>, r: Round, i: nat, order: nat, gaps: seq<Gap>)
    requires i < |rounds| <= order && RoundDone(rounds, i, order, gaps)
    ensures RoundDone(rounds + [r], i, order, gaps)
  {
    assert (rounds + [r])[..i] == rounds[..i];
  }

  lemma LastRoundDone(rounds: seq<Round>, r: Round, order: nat, gaps: seq<Gap>, atEnd: bool)
    requires History(rounds, order, gaps) && |rounds| <= order
    requires r.k == order - |rounds| && r.before == GapsAfter(rounds, gaps)
    requires Progress(r, atEnd) && Finished(r)
    ensures RoundDone(rounds + [r], |rounds|, order, gaps)
  {
    assert (rounds + [r])[..|rounds|] == rounds;
    if |rounds| > 0 {
      assert RoundDone(rounds, |rounds| - 1, order, gaps);
    }
  }

  lemma HistoryStep(rounds: seq<Round>, order: nat, gaps: seq<Gap>, r: Round, atEnd: bool)
    requires History(rounds, order, gaps) && |rounds| <= order
    requires r.k == order - |rounds| && r.before == GapsAfter(rounds, gaps)
    requires Progress(r, atEnd) && Finished(r)
    ensures History(rounds + [r], order, gaps)
    ensures BlocksPlaced(rounds + [r]) == BlocksPlaced(rounds) + |r.placed|
  {
    var rounds' := rounds + [r];
    assert rounds'[..|rounds|] == rounds;
    LastRoundDone(rounds, r, order, gaps, atEnd);
    forall i | 0 <= i < |rounds'| ensures RoundDone(rounds', i, order, gaps) {
      if i < |rounds| { RoundStaysDone(rounds, r, i, order, gaps); }
    }
  }

  // The state between rounds, `k` of which remain.
  ghost predicate Halving(gaps: seq<Gap>, rounds: seq<Round>, order: nat, left: seq<Gap>, k: nat, total: nat,
                          atEnd: bool)
  {
    && Separated(left) && History(rounds, order, gaps) && left == GapsAfter(rounds, gaps) && |rounds| == order + 1 - k
    && Total(Pages, left) <= Total(Pages, gaps)
    && total == AddPages(0, Total(Pages, gaps) - Total(Pages, left))
    && (atEnd ==>
          BlocksPlaced(rounds) + (if k > 0 then Total(Blocks(k - 1), left) else 0) == Total(Blocks(order), gaps))
  }

  lemma HalvingStep(gaps: seq<Gap>, rounds: seq<Round>, order: nat, r: Round, total: nat, atEnd: bool)
    requires Halving(gaps, rounds, order, r.before, r.k + 1, total, atEnd)
    requires Progress(r, atEnd) && Finished(r)
    ensures Halving(gaps, rounds + [r], order, r.left, r.k, AddPages(total, |r.placed| * r.Size()), atEnd)
  {
    HistoryStep(rounds, order, gaps, r, atEnd);
    var n := |r.placed| * r.Size();
    assert Total(Pages, r.before) == Total(Pages, r.left) + n;
    AddPagesTwice(0, Total(Pages, gaps) - Total(Pages, r.before), n);
    if atEnd { BlocksLeft(r); }
  }

  // After a round, only smaller blocks are to be counted.
  lemma BlocksLeft(r: Round)
    requires Progress(r, true) && Finished(r)
    ensures Total(Blocks(r.k), r.before) == |r.placed| + if r.k > 0 then Total(Blocks(r.k - 1), r.left) else 0
  {
    if r.k > 0 {
      TotalHalve(r.k, r.left);
    } else {
      NoPagesLeft(r.left);
    }
  }

  lemma HalvingDone(gaps: seq<Gap>, rounds: seq<Round>, order: nat, left: seq<Gap>, total: nat, atEnd: bool)
    requires Halving(gaps, rounds, order, left, 0, total, atEnd)
    ensures left == [] && total == PAGE_SIZE * Total(Pages, gaps) % WORD64
    ensures atEnd ==> BlocksPlaced(rounds) == SumOfDigits(gaps, order)
  {
    assert RoundDone(rounds, order, order, gaps);
    NoPagesLeft(left);
    SuccessCount(gaps, order);
  }

  lemma NoPagesLeft(gaps: seq<Gap>)
    requires Separated(gaps)
    ensures gaps == [] || !Smaller(gaps, 1)
  {
    if gaps != [] { assert gaps[0].pages > 0; }
  }

  // Halves the block size, from 2^order pages, until it is below a page.
  method ReserveAll(space: AddressSpace, order: nat) returns (status: int, total: nat, ghost rounds: seq<Round>)
    requires Separated(space.gaps) && !space.broken
    modifies space
    ensures status == (if space.broken then -1 else 0)
    ensures space.broken ==> space.faulty
    ensures History(rounds, order, old(space.gaps))
    ensures status == 0 ==>
              && space.gaps == [] && total == PAGE_SIZE * Total(Pages, old(space.gaps)) % WORD64
              && |rounds| == order + 1 && GapsAfter(rounds, old(space.gaps)) == []
    ensures status == 0 && space.atEnd ==> BlocksPlaced(rounds) == SumOfDigits(old(space.gaps), order)
  {
    total, rounds := 0, [];
    var allocLen := PAGE_SIZE * Pow2(order);
    ghost var k := order + 1;  // the block size is 2^(k-1) pages
    ghost var gaps := space.gaps;
    while allocLen >= PAGE_SIZE
      invariant 0 <= k <= order + 1
      invariant allocLen == if k > 0 then PAGE_SIZE * Pow2(k - 1) else PAGE_SIZE / 2
      invariant Halving(gaps, rounds, order, space.gaps, k, total, space.atEnd) && !space.broken
      decreases k
    {
      var error: bool;
      ghost var round: Round;
      ghost var before := total;
      error, total, round := Fill(space, allocLen, total, k - 1);
      if error {
        return -1, total, rounds;
      }
      HalvingStep(gaps, rounds, order, round, before, space.atEnd);
      rounds := rounds + [round];
      allocLen := allocLen / 2;
      k := k - 1;
    }
    status := 0;
    HalvingDone(gaps, rounds, order, space.gaps, total, space.atEnd);
  }

  // The program. The blocks it took are those of its rounds.
  method Program(space: AddressSpace) returns (status: int, total: nat, ghost rounds: seq<Round>)
    requires Separated(space.gaps) && !space.broken
    modifies space
    ensures status == (if space.broken then -1 else 0)
    ensures space.broken ==> space.faulty
    ensures status == 0 ==> space.gaps == [] && total == 4096 * Total(Pages, old(space.gaps)) % WORD64
    ensures History(rounds, 39, old(space.gaps))
    ensures status == 0 ==> |rounds| == 40
    ensures status == 0 && space.atEnd ==> BlocksPlaced(rounds) == SumOfDigits(old(space.gaps), 39)
  {
    status, total, rounds := ReserveAll(space, START_ORDER);
  }

  const START_ORDER := 39

  // The first block size is 1 << 51 bytes.
  lemma StartSize()
    ensures PAGE_SIZE * Pow2(START_ORDER) == 0x8_0000_0000_0000
  {
    assert Pow2(13) == 0x2000;
    Pow2Add(13, 13);
    Pow2Add(26, 13);
  }

  // With blocks placed at the ends of gaps only, each gap takes as many blocks as it has whole ones of
  // 2^order pages and, in what is left over, binary ones.
  lemma {:induction false} SuccessCount(gaps: seq<Gap>, order: nat)
    ensures Total(Blocks(order), gaps) == SumOfDigits(gaps, order)
  {
    if gaps != [] {
      GreedyIsPopCount(gaps[0].pages, order);
      SuccessCount(gaps[1..], order);
    }
  }

  function SumOfDigits(gaps: seq<Gap>, order: nat): int {
    if gaps == [] then 0
    else
      gaps[0].pages / Pow2(order) + PopCount(gaps[0].pages % Pow2(order)) + SumOfDigits(gaps[1..], order)
  }
}
