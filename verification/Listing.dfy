/** The text of `/proc/PID/maps`, and the byte-at-a-time parser of alloc.cpp as a function of the bytes seen. */
module Listing {
  import opened Words
  import opened Hex
  import opened Regions

  function Line(begin: nat, beginWidth: nat, end: nat, endWidth: nat, tail: string): string {
    Print(begin, beginWidth) + "-" + Print(end, endWidth) + " " + tail + "\n"
  }

  // Each region's line shows its two addresses, padded to any width, and after a space anything but a newline.
  ghost predicate Formatted(regions: seq<Region>) {
    forall i {:trigger HasLine(regions[i])} :: 0 <= i < |regions| ==> HasLine(regions[i])
  }

  ghost predicate HasLine(r: Region) {
    exists beginWidth: nat, endWidth: nat, tail: string ::
      '\n' !in tail && r.line == Line(r.begin, beginWidth, r.end, endWidth, tail)
  }

  function Text(regions: seq<Region>): string {
    if regions == [] then "" else regions[0].line + Text(regions[1..])
  }

  datatype Mode = ParseBegin | ParseEnd | ScanEnd

  datatype Parser = Parser(mode: Mode, regionBegin: nat, regionEnd: nat, reserved: seq<Range>)

  const INITIAL := Parser(ParseBegin, 0, 0, [])

  // One character, with `[lo, hi)` the interval whose gaps are wanted.
  function Step(p: Parser, c: char, lo: nat, hi: nat): Parser {
    match p.mode
    case ScanEnd => if c == '\n' then p.(mode := ParseBegin) else p
    case ParseBegin =>
      if c == '-' then
        Parser(ParseEnd, 0, 0, p.reserved + Gap(Max(p.regionEnd, lo), Min(p.regionBegin, hi)))
      else
        p.(regionBegin := Accumulate(p.regionBegin, c))
    case ParseEnd =>
      if c == ' ' then p.(mode := ScanEnd) else p.(regionEnd := Accumulate(p.regionEnd, c))
  }

  function Run(p: Parser, s: string, lo: nat, hi: nat): Parser
    decreases |s|
  {
    if s == "" then p else Run(Step(p, s[0], lo, hi), s[1..], lo, hi)
  }

  // What end of file adds.
  function Finish(p: Parser, lo: nat, hi: nat): seq<Range> {
    p.reserved + Gap(Max(p.regionEnd, lo), hi)
  }

  lemma {:induction false} RunAppend(p: Parser, s: string, t: string, lo: nat, hi: nat)
    ensures Run(p, s + t, lo, hi) == Run(Run(p, s, lo, hi), t, lo, hi)
    decreases |s|
  {
    if s == "" {
      assert s + t == t;
    } else {
      assert (s + t)[1..] == s[1..] + t;
      RunAppend(Step(p, s[0], lo, hi), s[1..], t, lo, hi);
    }
  }

  lemma RunSnoc(p: Parser, s: string, c: char, lo: nat, hi: nat)
    ensures Run(p, s + [c], lo, hi) == Step(Run(p, s, lo, hi), c, lo, hi)
  {
    RunAppend(p, s, [c], lo, hi);
    RunOne(Run(p, s, lo, hi), c, lo, hi);
  }

  lemma RunOne(p: Parser, c: char, lo: nat, hi: nat)
    ensures Run(p, [c], lo, hi) == Step(p, c, lo, hi)
  {
    assert [c][1..] == "";
  }

  // Reservations are only ever added at the end.
  lemma {:induction false} RunExtends(p: Parser, s: string, lo: nat, hi: nat)
    ensures p.reserved <= Run(p, s, lo, hi).reserved
    decreases |s|
  {
    if s != "" { RunExtends(Step(p, s[0], lo, hi), s[1..], lo, hi); }
  }

  lemma {:induction false} RunBegin(p: Parser, s: string, lo: nat, hi: nat)
    requires p.mode == ParseBegin && forall i :: 0 <= i < |s| ==> s[i] != '-'
    ensures Run(p, s, lo, hi) == p.(regionBegin := AccumulateAll(p.regionBegin, s))
    decreases |s|
  {
    if s != "" { RunBegin(Step(p, s[0], lo, hi), s[1..], lo, hi); }
  }

  lemma {:induction false} RunEnd(p: Parser, s: string, lo: nat, hi: nat)
    requires p.mode == ParseEnd && forall i :: 0 <= i < |s| ==> s[i] != ' '
    ensures Run(p, s, lo, hi) == p.(regionEnd := AccumulateAll(p.regionEnd, s))
    decreases |s|
  {
    if s != "" { RunEnd(Step(p, s[0], lo, hi), s[1..], lo, hi); }
  }

  lemma {:induction false} RunTail(p: Parser, s: string, lo: nat, hi: nat)
    requires p.mode == ScanEnd && forall i :: 0 <= i < |s| ==> s[i] != '\n'
    ensures Run(p, s, lo, hi) == p
    decreases |s|
  {
    if s != "" { RunTail(p, s[1..], lo, hi); }
  }

  // A whole line: both numbers come back exactly, the gap in front of the region is reserved, and
  // the accumulators are ready for the next line.
  lemma RunLine(r: Region, from: nat, reserved: seq<Range>, lo: nat, hi: nat)
    requires ValidRegion(r) && HasLine(r)
    ensures Run(Parser(ParseBegin, 0, from, reserved), r.line, lo, hi)
         == Parser(ParseBegin, 0, r.end, reserved + Gap(Max(from, lo), Min(r.begin, hi)))
  {
    var beginWidth: nat, endWidth: nat, tail :|
      '\n' !in tail && r.line == Line(r.begin, beginWidth, r.end, endWidth, tail);
    var b, e := Print(r.begin, beginWidth), Print(r.end, endWidth);
    var p0 := Parser(ParseBegin, 0, from, reserved);
    PrintRoundTrip(r.begin, beginWidth);
    PrintRoundTrip(r.end, endWidth);
    var p1 := p0.(regionBegin := r.begin);
    var p2 := Parser(ParseEnd, 0, 0, reserved + Gap(Max(from, lo), Min(r.begin, hi)));
    var p3 := p2.(regionEnd := r.end);
    var p4 := p3.(mode := ScanEnd);
    RunBegin(p0, b, lo, hi);
    RunSnoc(p0, b, '-', lo, hi);
    RunEnd(p2, e, lo, hi);
    RunAppend(p0, b + "-", e, lo, hi);
    RunSnoc(p0, b + "-" + e, ' ', lo, hi);
    RunTail(p4, tail, lo, hi);
    RunAppend(p0, b + "-" + e + " ", tail, lo, hi);
    RunSnoc(p0, b + "-" + e + " " + tail, '\n', lo, hi);
  }

  function LastEnd(regions: seq<Region>, from: nat): nat {
    if regions == [] then from else LastEnd(regions[1..], regions[0].end)
  }

  lemma {:induction false} RunText(regions: seq<Region>, from: nat, reserved: seq<Range>, lo: nat, hi: nat)
    requires Sorted(regions) && Formatted(regions) && forall i :: 0 <= i < |regions| ==> from <= regions[i].begin
    ensures Run(Parser(ParseBegin, 0, from, reserved), Text(regions), lo, hi)
         == Parser(ParseBegin, 0, LastEnd(regions, from), reserved + GapsBefore(regions, Max(from, lo), hi))
    ensures Max(LastEnd(regions, from), lo) == After(regions, Max(from, lo))
  {
    Order(regions);
    if regions == [] {
      assert reserved + [] == reserved;
    } else {
      var r := regions[0];
      assert HasLine(r) && Formatted(regions[1..]);
      var reserved' := reserved + Gap(Max(from, lo), Min(r.begin, hi));
      RunLine(r, from, reserved, lo, hi);
      RunAppend(Parser(ParseBegin, 0, from, reserved), r.line, Text(regions[1..]), lo, hi);
      RunText(regions[1..], r.end, reserved', lo, hi);
      assert Max(r.end, lo) == Max(Max(from, lo), r.end);
      GapsBeforeUnfold(regions, reserved, Max(from, lo), hi);
    }
  }

  lemma GapsBeforeUnfold(regions: seq<Region>, reserved: seq<Range>, lo: nat, hi: nat)
    requires regions != []
    ensures reserved + GapsBefore(regions, lo, hi)
         == reserved + Gap(lo, Min(regions[0].begin, hi)) + GapsBefore(regions[1..], Max(lo, regions[0].end), hi)
  {
    Associative(reserved, Gap(lo, Min(regions[0].begin, hi)), GapsBefore(regions[1..], Max(lo, regions[0].end), hi));
  }

  lemma SplitAfter<T>(r: seq<T>, s: seq<T>, t: seq<T>)
    requires r <= s
    ensures s + t == r + (s[|r|..] + t)
  {
    assert s == r + s[|r|..];
  }

  lemma Associative<T>(r: seq<T>, s: seq<T>, t: seq<T>)
    ensures r + (s + t) == r + s + t
  {}

  // Parsing the whole listing, then end of file, reserves exactly the gaps of `[lo, hi)`.
  lemma ParseGivesGaps(regions: seq<Region>, lo: nat, hi: nat)
    requires Sorted(regions) && Formatted(regions)
    ensures var p := Run(INITIAL, Text(regions), lo, hi);
            p.mode == ParseBegin && Finish(p, lo, hi) == Gaps(regions, lo, hi)
  {
    RunText(regions, 0, [], lo, hi);
    assert [] + GapsBefore(regions, lo, hi) == GapsBefore(regions, lo, hi);
  }

  lemma {:induction false} TextAppend(r: seq<Region>, t: seq<Region>)
    ensures Text(r + t) == Text(r) + Text(t)
  {
    if r == [] {
      assert r + t == t;
    } else {
      assert (r + t)[1..] == r[1..] + t;
      TextAppend(r[1..], t);
    }
  }
}
