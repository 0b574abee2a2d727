/** What the calls of mmap.c mean for one another, and inputs on which they do not do
    what they are for. */
module MmapLaws {
  import opened Options
  import opened AreaList
  import opened Mmap
  import opened Munmap

  /** Mapping and then unmapping the same run restores the view exactly when the run does
      not end in a hole below an area that the unmapping would move down. */
  lemma MapThenUnmap(before: seq<Area>, mid: seq<Area>, after: seq<Area>, r: Range, base: int, n: int, prot: int)
    requires WellFormed(mid, r) && n > 0
    requires Placed(before, mid, r, base, n, prot)
    requires Unmapped(mid, after, base, base + n)
    ensures (forall x :: At(after, x) == At(before, x)) <==> !Overgrows(mid, base, base + n)
  {
    ExactUnless(mid, after, r, base, base + n);
    if Updated(mid, after, base, base + n, None) {
      forall x ensures At(after, x) == At(before, x) {
        assert At(after, x) == if base <= x < base + n then None else At(mid, x);
      }
    } else {
      var x :| At(after, x) != if base <= x < base + n then None else At(mid, x);
      assert At(after, x) != At(before, x);
    }
  }

  // ----- when a search ends

  function GapStart(l: seq<Area>, r: Range, k: nat): int
    requires k <= |l|
  {
    if k > 0 then l[k - 1].end else r.lo
  }

  /** The gap in front of area k, or behind the last one, takes n bytes. */
  predicate GapTakes(l: seq<Area>, r: Range, n: int, k: nat)
    requires k <= |l|
  {
    GapStart(l, r, k) + n <= if k < |l| then l[k].start else r.hi
  }

  /** The first area that ends above b. */
  lemma {:induction false} FirstAbove(l: seq<Area>, b: int) returns (k: nat)
    ensures k <= |l| && (forall i :: 0 <= i < k ==> l[i].end <= b) && (k < |l| ==> b < l[k].end)
  {
    if l == [] || b < l[0].end {
      k := 0;
    } else {
      var rest := FirstAbove(l[1..], b);
      k := rest + 1;
    }
  }

  /** There is a free address exactly when one of the gaps is long enough. */
  lemma FitsInGap(l: seq<Area>, r: Range, n: int)
    requires WellFormed(l, r) && n > 0
    ensures Fits(l, r, n) <==> exists k :: 0 <= k <= |l| && GapTakes(l, r, n, k)
  {
    if k :| 0 <= k <= |l| && GapTakes(l, r, n, k) {
      var base := GapStart(l, r, k);
      assert k > 0 ==> Good(l[k - 1], r);
      assert k < |l| ==> Good(l[k], r);
      FreeGap(l, r, k, base, base + n);
    }
    if b :| r.lo <= b && b + n <= r.hi && Free(l, b, n) {
      var k := FirstAbove(l, b);
      if k < |l| && l[k].start < b + n {
        NotFree(l, r, k, b, n);
      }
      assert GapTakes(l, r, n, k);
    }
  }

  /** A search never ends if and only if there are areas and no gap takes the length. */
  lemma SearchEnds(before: seq<Area>, after: seq<Area>, r: Range, n: int, prot: int, out: Outcome, base: int)
    requires WellFormed(before, r) && n > 0 && Searched(before, after, r, n, prot, out, base)
    ensures out == Hang <==> before != [] && forall k :: 0 <= k <= |before| ==> !GapTakes(before, r, n, k)
  {
    FitsInGap(before, r, n);
  }

  // ----- what a search returns

  /** Gap k is the first that takes n bytes. */
  predicate FirstGap(l: seq<Area>, r: Range, n: int, k: nat) {
    k <= |l| && GapTakes(l, r, n, k) && forall j :: 0 <= j < k ==> !GapTakes(l, r, n, j)
  }

  /** n bytes fill gap k, and the areas on both sides have protection prot. */
  predicate Joins(l: seq<Area>, n: int, prot: int, k: nat) {
    0 < k < |l| && l[k - 1].end + n == l[k].start && l[k - 1].prot == prot == l[k].prot
  }

  /** The area in front of gap k has protection prot, or n bytes fill the gap and the one
      behind it has. */
  predicate Extends(l: seq<Area>, r: Range, n: int, prot: int, k: nat)
    requires k <= |l|
  {
    || (k > 0 && l[k - 1].prot == prot)
    || (k < |l| && GapStart(l, r, k) + n == l[k].start && l[k].prot == prot)
  }

  lemma SomeFirst(l: seq<Area>, r: Range, n: int, k: nat) returns (f: nat)
    requires k <= |l| && GapTakes(l, r, n, k)
    ensures FirstGap(l, r, n, f)
  {
    if j :| 0 <= j < k && GapTakes(l, r, n, j) {
      f := SomeFirst(l, r, n, j);
    } else {
      f := k;
    }
  }

  /** In front of the first gap that takes the length nothing fits. */
  lemma {:induction false} NothingBelow(l: seq<Area>, r: Range, n: int, k: nat)
    requires WellFormed(l, r) && n > 0 && k <= |l| && forall j :: 0 <= j < k ==> !GapTakes(l, r, n, j)
    ensures NoFitBelow(l, r, GapStart(l, r, k), n)
  {
    if k > 0 {
      NothingBelow(l, r, n, k - 1);
      assert !GapTakes(l, r, n, k - 1);
      SearchOn(l, r, k - 1, GapStart(l, r, k - 1), n);
    }
  }

  /** The first fit is the start of the first gap that is long enough, and what it touches
      are the areas at the sides of that gap. */
  lemma FirstGapFits(l: seq<Area>, r: Range, n: int, prot: int, k: nat, base: int)
    requires WellFormed(l, r) && n > 0 && FirstGap(l, r, n, k) && FirstFit(l, r, base, n)
    ensures base == GapStart(l, r, k)
    ensures Bridged(l, base, n, prot) <==> Joins(l, n, prot, k)
    ensures Touched(l, base, n, prot) <==> Extends(l, r, n, prot, k)
  {
    var b := GapStart(l, r, k);
    assert k > 0 ==> Good(l[k - 1], r);
    assert k < |l| ==> Good(l[k], r);
    NothingBelow(l, r, n, k);
    Found(l, r, k, b, n, prot);
    FirstFitUnique(l, r, b, base, n);
  }

  /** A search that fits has a first gap. */
  lemma FirstOfAll(l: seq<Area>, r: Range, n: int) returns (k: nat)
    requires WellFormed(l, r) && n > 0 && Fits(l, r, n)
    ensures FirstGap(l, r, n, k)
  {
    FitsInGap(l, r, n);
    var j :| 0 <= j <= |l| && GapTakes(l, r, n, j);
    k := SomeFirst(l, r, n, j);
  }

  /** The returned value is the address of a run that has been mapped if and only if the run
      does not fill the first gap that takes it, between two areas that have its protection. */
  lemma SearchReturnsBase(before: seq<Area>, after: seq<Area>, r: Range, n: int, prot: int, out: Outcome, base: int)
    requires WellFormed(before, r) && n > 0 && Searched(before, after, r, n, prot, out, base) && Succeeds(out)
    ensures Placed(before, after, r, out.value, n, prot)
       <==> !exists k :: FirstGap(before, r, n, k) && Joins(before, n, prot, k)
  {
    var k := FirstOfAll(before, r, n);
    FirstGapFits(before, r, n, prot, k, base);
    if Joins(before, n, prot, k) {
      NotFree(before, r, k, base + n, n);
    }
    if j :| FirstGap(before, r, n, j) && Joins(before, n, prot, j) {
      FirstGapFits(before, r, n, prot, j, base);
    }
  }

  /** A page is mapped into the one-page hole between two areas of the same protection:
      it goes to the hole, but the call returns the address behind it. */
  lemma SearchReturnsEnd(after: seq<Area>, out: Outcome, base: int)
    requires Searched([Area(0, 4096, 1), Area(8192, 12288, 1)], after, Range(0, 65536), 4096, 1, out, base)
    ensures base == 4096 && out == Ret(8192)
  {
    var l := [Area(0, 4096, 1), Area(8192, 12288, 1)];
    var r := Range(0, 65536);
    assert WellFormed(l, r);
    assert NoFitBelow(l, r, 0, 4096);
    SearchOn(l, r, 0, 0, 4096);
    Found(l, r, 1, 4096, 4096, 1);
    FirstFitUnique(l, r, base, 4096, 4096);
  }

  /** A range that is full: the search for one more page does not end. */
  lemma SearchHangs(after: seq<Area>, out: Outcome, base: int)
    requires Searched([Area(0, 8192, 1)], after, Range(0, 8192), 4096, 1, out, base)
    ensures out == Hang
  {
    var l := [Area(0, 8192, 1)];
    var r := Range(0, 8192);
    assert WellFormed(l, r) && NoFitBelow(l, r, 0, 4096);
    SearchOn(l, r, 0, 0, 4096);
    NothingFits(l, r, 8192, 4096);
  }

  // ----- MAP_FIXED

  /** The bit is set and the call maps some other run than the one at the hint: exactly when
      other bits are set as well, the hint lies in the range and its run ends behind it, and
      some gap takes the length, the first one without a new area if there are 128. */
  lemma FixedIgnored(before: seq<Area>, after: seq<Area>, r: Range, addr: int, n: int, prot: int, flags: Flags,
                     out: Outcome, base: int)
    requires flags.fixed && WellFormed(before, r) && n > 0 && r.lo >= 0
    requires Hinted(before, after, r, addr, n, prot, flags, out, base)
    ensures Succeeds(out) && !Placed(before, after, r, addr, n, prot)
       <==> && flags.others && r.lo <= addr <= r.hi < addr + n
            && exists k :: FirstGap(before, r, n, k) && (|before| < MAX_AREAS || Extends(before, r, n, prot, k))
  {
    if flags.others && r.lo <= addr <= r.hi < addr + n {
      if k :| FirstGap(before, r, n, k) && (|before| < MAX_AREAS || Extends(before, r, n, prot, k)) {
        FitsInGap(before, r, n);
        FirstGapFits(before, r, n, prot, k, base);
      }
      if Fits(before, r, n) {
        var k := FirstOfAll(before, r, n);
        FirstGapFits(before, r, n, prot, k, base);
      }
    }
  }

  /** Two pages are to be mapped at the last page of an empty range, with MAP_FIXED and
      another flag: they are mapped at its start. */
  lemma FixedMoves(after: seq<Area>, out: Outcome, base: int)
    requires Hinted([], after, Range(0, 65536), 61440, 8192, 1, Flags(true, true), out, base)
    ensures out == Ret(0) && At(after, 0) == Some(1) && At(after, 61440) == None
  {
    Found([], Range(0, 65536), 0, 0, 8192, 1);
    FirstFitUnique([], Range(0, 65536), base, 0, 8192);
  }

  // ----- a hint that is taken

  /** An occupied hint without MAP_FIXED: the call starts over with the end of the area that
      holds it as its hint, if that address and the hint add up to no more than the end of the
      range; else it searches. */
  lemma OccupiedHint(before: seq<Area>, after: seq<Area>, r: Range, k: nat, addr: int, n: int, prot: int, flags: Flags,
                     out: Outcome, base: int)
    requires WellFormed(before, r) && k < |before| && Contains(before[k], addr) && n > 0 && addr + n <= r.hi
    requires !flags.fixed && Hinted(before, after, r, addr, n, prot, flags, out, base)
    ensures if addr + before[k].end <= r.hi then Hinted(before, after, r, before[k].end, n, prot, flags, out, base)
            else Searched(before, after, r, n, prot, out, base)
  {
    Ordered(before, r, k, k);
    NotFree(before, r, k, addr, n);
    forall i | 0 <= i < k ensures before[i].end <= addr {
      Ordered(before, r, i, k);
    }
    NextHintAt(before, addr, k);
  }

  /** In a range whose start is beyond half of its end no hint is tried again: the sum of two
      addresses is never in the range. */
  lemma NeverRetried(before: seq<Area>, after: seq<Area>, r: Range, addr: int, n: int, prot: int, flags: Flags,
                     out: Outcome, base: int)
    requires WellFormed(before, r) && n > 0 && r.hi < 2 * r.lo && Succeeds(out)
    requires Hinted(before, after, r, addr, n, prot, flags, out, base)
    ensures base == addr || FirstFit(before, r, base, n)
  {
  }

  /** Low in the address space one is: the page behind the area is mapped, though the first
      page is free. */
  lemma RetriedHint(after: seq<Area>, out: Outcome, base: int)
    requires Hinted([Area(4096, 8192, 1)], after, Range(0, 65536), 4096, 4096, 2, Flags(false, false), out, base)
    ensures out == Ret(8192) && At(after, 8192) == Some(2) && At(after, 0) == None
  {
    var l := [Area(4096, 8192, 1)];
    var r := Range(0, 65536);
    assert WellFormed(l, r) && Contains(l[0], 4096);
    OccupiedHint(l, after, r, 0, 4096, 4096, 2, Flags(false, false), out, base);
    FreeGap(l, r, 1, 8192, 12288);
    AtNowhere(l, 0);
  }

  // ----- unmapping what has been mapped

  /** Mapping behind an area of the same protection and unmapping again can corrupt the
      list: the hole behind the run ends up mapped. */
  lemma MapThenUnmapFails(mid: seq<Area>, after: seq<Area>)
    requires mid == [Area(0, 8192, 1), Area(12288, 16384, 1)]
    requires Unmapped(mid, after, 4096, 8192)
    ensures Placed([Area(0, 4096, 1), Area(12288, 16384, 1)], mid, Range(0, 65536), 4096, 4096, 1)
    ensures At(mid, 8192) == None && At(after, 8192) == Some(1)
  {
    var before := [Area(0, 4096, 1), Area(12288, 16384, 1)];
    var r := Range(0, 65536);
    assert WellFormed(before, r);
    GrowUp(before, mid, r, 0, 4096);
    assert mid[1..] == [mid[1]];
    assert FirstFrom(mid[1..], 4096) == 0;
    assert FirstFrom(mid, 4096) == 1;
    assert !Splits(mid, 4096, 8192);
    AtNowhere(mid, 8192);
  }
}
