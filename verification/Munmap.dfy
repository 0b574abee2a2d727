/** vm_area_unmap of Assignment3/mmap.c, with what it does to every address, and the
    exact condition under which that is what was asked for. */
module Munmap {
  import opened Options
  import opened AreaList
  import opened AddressSpace

  /** The position of the first area that starts at or after addr. */
  function FirstFrom(l: seq<Area>, addr: int): (k: nat)
    ensures k <= |l|
    ensures forall i :: 0 <= i < k ==> l[i].start < addr
    ensures k < |l| ==> addr <= l[k].start
  {
    if l == [] || addr <= l[0].start then 0 else 1 + FirstFrom(l[1..], addr)
  }

  /** The range lies strictly inside one area. */
  ghost predicate Splits(l: seq<Area>, addr: int, hi: int) {
    exists k :: 0 <= k < |l| && l[k].start < addr && hi < l[k].end
  }

  /** The range ends in a hole in front of the first area at or after addr. */
  ghost predicate Overgrows(l: seq<Area>, addr: int, hi: int) {
    && !Splits(l, addr, hi)
    && FirstFrom(l, addr) < |l| && hi < l[FirstFrom(l, addr)].start
  }

  /** What the code does: the range is unmapped, but an area that starts in or behind a
      hole where the range ends is moved down over the hole. */
  ghost predicate Unmapped(before: seq<Area>, after: seq<Area>, addr: int, hi: int) {
    forall x :: At(after, x) ==
      if addr <= x < hi then None
      else if Overgrows(before, addr, hi) && hi <= x < before[FirstFrom(before, addr)].start
      then Some(before[FirstFrom(before, addr)].prot)
      else At(before, x)
  }

  /** Outside the range areas start where they did, but for the one that is moved down. */
  ghost predicate Kept(before: seq<Area>, after: seq<Area>, addr: int, hi: int) {
    forall x :: x < addr || hi < x ==>
      (Begins(after, x)
       <==> Begins(before, x) && !(Overgrows(before, addr, hi) && x == before[FirstFrom(before, addr)].start))
  }

  /** The seams outside the range stay, and there are no others. */
  ghost predicate SeamsOutside(before: seq<Area>, after: seq<Area>, addr: int, hi: int) {
    forall x :: Seam(after, x) <==> Seam(before, x) && (x < addr || hi < x)
  }

  lemma KeptSeams(before: seq<Area>, after: seq<Area>, r: Range, addr: int, hi: int)
    requires WellFormed(before, r) && WellFormed(after, r) && addr < hi
    requires Unmapped(before, after, addr, hi) && Kept(before, after, addr, hi)
    ensures SeamsOutside(before, after, addr, hi)
  {
    if Overgrows(before, addr, hi) {
      NothingUpTo(before, r, addr, hi);
    }
    forall x ensures Seam(after, x) <==> Seam(before, x) && (x < addr || hi < x) {
      if Begins(after, x) {
        var k :| 0 <= k < |after| && after[k].start == x;
        BeginsMapped(after, r, k);
      }
      if Begins(before, x) {
        var k :| 0 <= k < |before| && before[k].start == x;
        BeginsMapped(before, r, k);
      }
    }
  }

  /** Between the end of the range and the area that is moved down there is nothing. */
  lemma NothingUpTo(l: seq<Area>, r: Range, addr: int, hi: int)
    requires WellFormed(l, r) && addr < hi && Overgrows(l, addr, hi)
    ensures forall x :: hi <= x < l[FirstFrom(l, addr)].start ==> At(l, x) == None && !Begins(l, x)
  {
    var f := FirstFrom(l, addr);
    forall x | hi <= x < l[f].start ensures At(l, x) == None && !Begins(l, x) {
      forall i | 0 <= i < |l| ensures !Contains(l[i], x) && l[i].start != x {
        Ordered(l, r, i, f);
        assert !(l[i].start < addr && hi < l[i].end);
      }
      AtNowhere(l, x);
    }
  }

  /** The call removes exactly the requested pages precisely when the range does not end
      in such a hole. */
  lemma ExactUnless(before: seq<Area>, after: seq<Area>, r: Range, addr: int, hi: int)
    requires WellFormed(before, r) && addr < hi && Unmapped(before, after, addr, hi)
    ensures Updated(before, after, addr, hi, None) <==> !Overgrows(before, addr, hi)
  {
    if Overgrows(before, addr, hi) {
      var f := FirstFrom(before, addr);
      forall i | 0 <= i < |before| ensures !Contains(before[i], hi) {
        Ordered(before, r, i, f);
        assert !(before[i].start < addr && hi < before[i].end);
      }
      AtNowhere(before, hi);
      assert At(after, hi) == Some(before[f].prot);
    }
  }

  /** One page is unmapped below a single area that starts a page further up: the hole
      between them becomes part of the area. */
  lemma HoleIsFilled(after: seq<Area>)
    requires Unmapped([Area(8192, 12288, 1)], after, 0, 4096)
    ensures At([Area(8192, 12288, 1)], 4096) == None && At(after, 4096) == Some(1)
  {
    var l := [Area(8192, 12288, 1)];
    assert FirstFrom(l, 0) == 0;
    assert !Splits(l, 0, 4096);
    AtNowhere(l, 4096);
  }

  /** The range itself, or down to hi if that lies below it. */
  function Widened(r: Range, hi: int): Range {
    Range(if hi < r.lo then hi else r.lo, r.hi)
  }

  /** The call has no check of its range: one that ends below the mmap area moves the first
      area out of it.  Else the areas stay where they may be. */
  lemma StaysInRange(before: seq<Area>, after: seq<Area>, r: Range, addr: int, hi: int)
    requires WellFormed(before, r) && addr < hi && Unmapped(before, after, addr, hi)
    requires WellFormed(after, Widened(r, hi))
    ensures WellFormed(after, r) <==> r.lo <= hi || before == []
  {
    if hi < r.lo {
      if before == [] {
        if |after| > 0 {
          AtIndex(after, 0, after[0].start);
        }
        assert after == [];
      } else {
        Ordered(before, r, 0, 0);
        assert FirstFrom(before, addr) == 0;
        assert At(after, hi) == Some(before[0].prot);
        if forall i :: 0 <= i < |after| ==> Good(after[i], r) {
          AtNowhere(after, hi);
        }
      }
    }
  }

  /** An input: the page below the address range is unmapped, and the first area follows. */
  lemma LeavesRange(after: seq<Area>)
    requires Unmapped([Area(8192, 12288, 1)], after, 0, 4096) && WellFormed(after, Widened(Range(8192, 65536), 4096))
    ensures !WellFormed(after, Range(8192, 65536))
  {
    StaysInRange([Area(8192, 12288, 1)], after, Range(8192, 65536), 0, 4096);
  }

  // ----- the loop

  /** Where the loop is: the list it started from and its range, the position k in the
      list as it is now and m in the original one, and the range [addr, hi).  `at` is
      cur_addr: still addr, or the start of area m once some area has been removed.
      [addr, gone) has been unmapped. */
  datatype Scan = Scan(l0: seq<Area>, r: Range, k: nat, m: nat, addr: int, hi: int, at: int, gone: int)

  /** What a call starts from. */
  ghost predicate Fixed(l0: seq<Area>, r: Range, addr: int, hi: int) {
    WellFormed(l0, r) && OnPage(addr) && OnPage(hi) && r.lo <= hi && addr < hi
  }

  /** What the scan has seen of the original list. */
  ghost predicate Seen(s: Scan) {
    match s
    case Scan(l0, _, _, m, addr, hi, at, gone) =>
      && m <= |l0| && addr <= gone <= hi
      && (gone == addr || (m < |l0| ==> gone <= l0[m].start))
      && (if at == addr
          then forall i :: 0 <= i < m ==> l0[i].start < addr && l0[i].end <= hi
          else m < |l0| && addr < at == l0[m].start && addr <= l0[FirstFrom(l0, addr)].start < hi)
      && (forall i :: 0 <= i < m ==> !(l0[i].start < addr && hi < l0[i].end))
  }

  /** The list as it is now: areas before k are below the range, and those from k on are the
      original ones from m on. */
  ghost predicate Rest(s: Scan, l: seq<Area>) {
    match s
    case Scan(l0, r, k, m, addr, _, at, gone) =>
      && WellFormed(l, r) && k <= |l| && m <= |l0| && l[k..] == l0[m..]
      && (forall i :: 0 <= i < k ==> l[i].end <= addr)
      && (forall x :: At(l, x) == if addr <= x < gone then None else At(l0, x))
      && (forall x :: Begins(l, x) <==> Begins(l0, x) && !(addr <= x < gone))
      && (at == addr && gone == addr ==> l == l0)
  }

  ghost predicate Progress(s: Scan, l: seq<Area>) {
    Seen(s) && Rest(s, l)
  }

  /** The results of a call that has stopped. */
  ghost predicate Stopped(s: Scan, l: seq<Area>, ret: int) {
    match s
    case Scan(l0, r, _, _, addr, hi, _, _) =>
      && WellFormed(l, r)
      && (ret == 0 || ret == -1)
      && (ret == -1 <==> Splits(l0, addr, hi) && |l0| == MAX_AREAS)
      && (ret == -1 ==> l == l0)
      && (ret == 0 ==> Unmapped(l0, l, addr, hi) && Kept(l0, l, addr, hi))
  }

  lemma NoSplit(s: Scan)
    requires WellFormed(s.l0, s.r) && s.m <= |s.l0| && (s.m < |s.l0| ==> s.addr <= s.l0[s.m].start)
    requires forall i :: 0 <= i < s.m ==> !(s.l0[i].start < s.addr && s.hi < s.l0[i].end)
    ensures !Splits(s.l0, s.addr, s.hi)
  {
    forall i | s.m <= i < |s.l0| ensures s.addr <= s.l0[i].start {
      Ordered(s.l0, s.r, s.m, i);
    }
  }

  /** Nothing that is left reaches into the rest of the range: the list is final. */
  lemma Finish(s: Scan, l: seq<Area>)
    requires Fixed(s.l0, s.r, s.addr, s.hi) && Progress(s, l)
    requires s.m == |s.l0| || (s.at != s.addr && s.at >= s.hi)
    ensures Stopped(s, l, 0)
  {
    forall i | 0 <= i < |l| ensures forall x :: s.gone <= x < s.hi ==> !Contains(l[i], x) {
      if i >= s.k {
        assert l[i] == l[s.k..][i - s.k] == s.l0[s.m..][i - s.k] == s.l0[s.m + (i - s.k)];
        Ordered(s.l0, s.r, s.m, s.m + (i - s.k));
      }
    }
    forall x | s.gone <= x < s.hi ensures At(l, x) == None {
      AtNowhere(l, x);
    }
    NoSplit(s);
  }

  lemma Here(s: Scan, l: seq<Area>)
    requires Fixed(s.l0, s.r, s.addr, s.hi) && Progress(s, l) && s.m < |s.l0|
    ensures s.k < |l| && l[s.k] == s.l0[s.m] && Good(l[s.k], s.r)
    ensures l[s.k..][1..] == l[s.k + 1..] == s.l0[s.m + 1..]
  {
    assert l[s.k] == l[s.k..][0] == s.l0[s.m];
    assert l[s.k..][1..] == l[s.k + 1..] && s.l0[s.m..][1..] == s.l0[s.m + 1..];
    Ordered(s.l0, s.r, s.m, s.m);
  }

  lemma Skip(s: Scan, l: seq<Area>)
    requires Fixed(s.l0, s.r, s.addr, s.hi) && Progress(s, l) && s.m < |s.l0| && s.l0[s.m].end <= s.at
    ensures Progress(s.(k := s.k + 1, m := s.m + 1), l)
  {
    Here(s, l);
    Ordered(s.l0, s.r, s.m, s.m);
  }

  /** The area in which the range starts loses its end. */
  lemma Truncate(s: Scan, l: seq<Area>, l': seq<Area>)
    requires Fixed(s.l0, s.r, s.addr, s.hi) && Progress(s, l) && s.m < |s.l0|
        && s.l0[s.m].start < s.at < s.l0[s.m].end <= s.hi
    requires s.k < |l| && l' == l[s.k := l[s.k].(end := s.at)]
    ensures Progress(s.(k := s.k + 1, m := s.m + 1, gone := s.l0[s.m].end), l')
  {
    Here(s, l);
    TruncateSeen(s);
    TruncateRest(s, l, l');
  }

  lemma TruncateSeen(s: Scan)
    requires WellFormed(s.l0, s.r) && Seen(s) && s.m < |s.l0| && s.l0[s.m].start < s.at < s.l0[s.m].end <= s.hi
    ensures s.at == s.addr && Seen(s.(k := s.k + 1, m := s.m + 1, gone := s.l0[s.m].end))
  {
    if s.m + 1 < |s.l0| {
      Ordered(s.l0, s.r, s.m, s.m + 1);
    }
  }

  lemma TruncateRest(s: Scan, l: seq<Area>, l': seq<Area>)
    requires Rest(s, l) && s.k < |l| && s.m < |s.l0| && l[s.k] == s.l0[s.m] && l[s.k + 1..] == s.l0[s.m + 1..]
    requires OnPage(s.addr) && l[s.k].start < s.addr < l[s.k].end && s.addr <= s.gone <= l[s.k].end
    requires l' == l[s.k := l[s.k].(end := s.addr)]
    ensures Rest(s.(k := s.k + 1, m := s.m + 1, gone := s.l0[s.m].end), l')
  {
    TruncateView(l, l', s.r, s.k, s.addr);
    assert l'[s.k + 1..] == l[s.k + 1..];
    BelowCut(l, l', s.k, s.addr);
  }

  lemma BelowCut(l: seq<Area>, l': seq<Area>, k: nat, addr: int)
    requires k < |l| && l' == l[k := l[k].(end := addr)] && forall i :: 0 <= i < k ==> l[i].end <= addr
    ensures forall i :: 0 <= i < k + 1 ==> l'[i].end <= addr
  {
  }

  lemma TruncateView(l: seq<Area>, l': seq<Area>, r: Range, k: nat, addr: int)
    requires WellFormed(l, r) && k < |l| && OnPage(addr) && l[k].start < addr < l[k].end
    requires l' == l[k := l[k].(end := addr)]
    ensures WellFormed(l', r)
    ensures Updated(l, l', addr, l[k].end, None) && forall x :: Begins(l', x) <==> Begins(l, x)
  {
    Ordered(l, r, k, k);
    if k > 0 {
      Ordered(l, r, k - 1, k);
    }
    if k + 1 < |l| {
      Ordered(l, r, k, k + 1);
    }
    Resize(l, l', r, k, l'[k]);
  }

  /** Where the scan is when area m has gone. */
  function AfterDelete(s: Scan): Scan
    requires s.m + 1 < |s.l0|
  {
    s.(m := s.m + 1, gone := s.l0[s.m].end, at := s.l0[s.m + 1].start)
  }

  /** An area that lies in the range goes. */
  lemma Delete(s: Scan, l: seq<Area>, l': seq<Area>)
    requires Fixed(s.l0, s.r, s.addr, s.hi) && Progress(s, l) && s.m < |s.l0| && s.at <= s.l0[s.m].start
        && s.l0[s.m].end <= s.hi
    requires s.k < |l| && l' == RemoveAt(l, s.k)
    ensures s.m + 1 < |s.l0| ==> Progress(AfterDelete(s), l') && s.k < |l'| && l'[s.k] == s.l0[s.m + 1]
    ensures s.m + 1 == |s.l0| ==> Stopped(s, l', 0) && s.k == |l'|
  {
    Here(s, l);
    assert l'[s.k..] == l[s.k + 1..];
    assert s.k < |l'| ==> l'[s.k] == l'[s.k..][0];
    if s.m + 1 < |s.l0| {
      DeleteMore(s, l, l');
    } else {
      DeleteLast(s, l, l');
    }
  }

  /** What the list is then: nothing is left from addr to the area's end. */
  lemma Deleted(s: Scan, l: seq<Area>, l': seq<Area>)
    requires Fixed(s.l0, s.r, s.addr, s.hi) && Progress(s, l) && s.m < |s.l0| && s.at <= s.l0[s.m].start
        && s.l0[s.m].end <= s.hi
    requires s.k < |l| && l[s.k] == s.l0[s.m] && l' == RemoveAt(l, s.k)
    ensures WellFormed(l', s.r)
    ensures forall x :: At(l', x) == if s.addr <= x < s.l0[s.m].end then None else At(s.l0, x)
    ensures forall x :: Begins(l', x) <==> Begins(s.l0, x) && !(s.addr <= x < s.l0[s.m].end)
  {
    RemoveView(l, s.r, s.k);
    NothingBefore(s, l);
    Ordered(s.l0, s.r, s.m, s.m);
  }

  lemma DeleteMore(s: Scan, l: seq<Area>, l': seq<Area>)
    requires Fixed(s.l0, s.r, s.addr, s.hi) && Progress(s, l) && s.m + 1 < |s.l0| && s.at <= s.l0[s.m].start
        && s.l0[s.m].end <= s.hi
    requires s.k < |l| && l[s.k] == s.l0[s.m] && l' == RemoveAt(l, s.k) && l'[s.k..] == s.l0[s.m + 1..]
    ensures Progress(AfterDelete(s), l')
  {
    Deleted(s, l, l');
    OnwardFrom(s);
    BelowStill(l, l', s.k, s.addr);
  }

  /** The next area in the original list lies behind, and the first one from addr on
      starts in the range. */
  lemma OnwardFrom(s: Scan)
    requires WellFormed(s.l0, s.r) && s.m + 1 < |s.l0| && s.addr <= s.at <= s.l0[s.m].start && s.l0[s.m].end <= s.hi
    ensures s.addr < s.l0[s.m].end <= s.l0[s.m + 1].start
    ensures s.addr <= s.l0[FirstFrom(s.l0, s.addr)].start < s.hi
  {
    Ordered(s.l0, s.r, FirstFrom(s.l0, s.addr), s.m);
    Ordered(s.l0, s.r, s.m, s.m + 1);
  }

  lemma BelowStill(l: seq<Area>, l': seq<Area>, k: nat, addr: int)
    requires k < |l| && l' == RemoveAt(l, k) && forall i :: 0 <= i < k ==> l[i].end <= addr
    ensures forall i :: 0 <= i < k ==> l'[i].end <= addr
  {
  }

  lemma DeleteLast(s: Scan, l: seq<Area>, l': seq<Area>)
    requires Fixed(s.l0, s.r, s.addr, s.hi) && Progress(s, l) && s.m + 1 == |s.l0| && s.at <= s.l0[s.m].start
        && s.l0[s.m].end <= s.hi
    requires s.k < |l| && l[s.k] == s.l0[s.m] && l' == RemoveAt(l, s.k)
    ensures Stopped(s, l', 0)
  {
    Deleted(s, l, l');
    Ordered(s.l0, s.r, FirstFrom(s.l0, s.addr), s.m);
    forall x | s.l0[s.m].end <= x < s.hi ensures At(s.l0, x) == None {
      forall i | 0 <= i < |s.l0| ensures !Contains(s.l0[i], x) {
        Ordered(s.l0, s.r, i, s.m);
      }
      AtNowhere(s.l0, x);
    }
    NoSplit(s);
  }

  /** Between what has been unmapped and the next area there is nothing. */
  lemma NothingBefore(s: Scan, l: seq<Area>)
    requires Fixed(s.l0, s.r, s.addr, s.hi) && Progress(s, l) && s.m < |s.l0| && s.at <= s.l0[s.m].start
    ensures forall x :: s.gone <= x < s.l0[s.m].start ==> At(l, x) == None && !Begins(l, x)
  {
    forall x | s.gone <= x < s.l0[s.m].start ensures At(l, x) == None && !Begins(l, x) {
      forall i | 0 <= i < |l| ensures !Contains(l[i], x) && l[i].start != x {
        if i >= s.k {
          assert l[i] == l[s.k..][i - s.k] == s.l0[s.m..][i - s.k] == s.l0[s.m + (i - s.k)];
          Ordered(s.l0, s.r, s.m, s.m + (i - s.k));
        }
      }
      AtNowhere(l, x);
    }
  }

  lemma RemoveView(l: seq<Area>, r: Range, k: nat)
    requires WellFormed(l, r) && k < |l|
    ensures WellFormed(RemoveAt(l, k), r)
    ensures Updated(l, RemoveAt(l, k), l[k].start, l[k].end, None)
    ensures forall x :: Begins(RemoveAt(l, k), x) <==> Begins(l, x) && !(l[k].start <= x < l[k].end)
  {
    assert RemoveAt(l, k) == Replace(l, k, k + 1, []);
    Alone(l, r, k);
    Splice(l, r, k, k + 1, l[k].start, l[k].end, []);
  }

  /** The area that the range ends in front of or inside starts at the end of the range. */
  lemma Resume(s: Scan, l: seq<Area>, l': seq<Area>)
    requires Fixed(s.l0, s.r, s.addr, s.hi) && Progress(s, l) && s.m < |s.l0| && s.at <= s.l0[s.m].start
        && s.hi < s.l0[s.m].end && s.at < s.hi
    requires s.k < |l| && l' == l[s.k := l[s.k].(start := s.hi)]
    ensures Stopped(s, l', 0)
  {
    Here(s, l);
    ResumeView(l, l', s.r, s.k, s.hi);
    NothingBefore(s, l);
    NoSplit(s);
    var f := FirstFrom(s.l0, s.addr);
    Ordered(s.l0, s.r, f, s.m);
    if s.at == s.addr {
      assert f == s.m;
    }
  }

  lemma ResumeView(l: seq<Area>, l': seq<Area>, r: Range, k: nat, hi: int)
    requires WellFormed(l, r) && k < |l| && OnPage(hi) && r.lo <= hi < l[k].end
    requires forall i :: 0 <= i < k ==> l[i].end <= hi
    requires l' == l[k := l[k].(start := hi)]
    ensures WellFormed(l', r)
    ensures forall x :: At(l', x) == (
              if l[k].start <= x < hi then None
              else if hi <= x < l[k].start then Some(l[k].prot)
              else At(l, x))
    ensures forall x :: Begins(l', x) <==> x == hi || (x != l[k].start && Begins(l, x))
  {
    Ordered(l, r, k, k);
    if k + 1 < |l| {
      Ordered(l, r, k, k + 1);
    }
    Resize(l, l', r, k, l'[k]);
  }

  /** A range strictly inside an area splits it, which a full list refuses. */
  lemma Whole(s: Scan, l: seq<Area>)
    requires Fixed(s.l0, s.r, s.addr, s.hi) && Progress(s, l) && s.m < |s.l0| && s.l0[s.m].start < s.at
        && s.hi < s.l0[s.m].end && s.at < s.l0[s.m].end
    ensures l == s.l0 && Splits(s.l0, s.addr, s.hi)
    ensures |s.l0| >= MAX_AREAS ==> Stopped(s, l, -1)
  {
  }

  /** The range is cut out of the middle of one area. */
  lemma Hole(s: Scan, l: seq<Area>, l': seq<Area>)
    requires Fixed(s.l0, s.r, s.addr, s.hi) && Progress(s, l) && |l| < MAX_AREAS
    requires s.m < |s.l0| && s.l0[s.m].start < s.at && s.hi < s.l0[s.m].end && s.at < s.l0[s.m].end
    requires s.k < |l| && l' == InsertAt(l[s.k := l[s.k].(end := s.at)], s.k + 1, l[s.k].(start := s.hi))
    ensures Stopped(s, l', 0)
  {
    Here(s, l);
    assert Splits(s.l0, s.addr, s.hi);
    HoleView(l, l', s.r, s.k, s.addr, s.hi);
  }

  lemma HoleView(l: seq<Area>, l': seq<Area>, r: Range, k: nat, addr: int, hi: int)
    requires WellFormed(l, r) && k < |l| < MAX_AREAS && OnPage(addr) && OnPage(hi)
    requires l[k].start < addr < hi < l[k].end
    requires l' == InsertAt(l[k := l[k].(end := addr)], k + 1, l[k].(start := hi))
    ensures WellFormed(l', r)
    ensures Updated(l, l', addr, hi, None) && forall x :: Begins(l', x) <==> x == hi || Begins(l, x)
  {
    var a, b, c := l[k], l[k].(end := addr), l[k].(start := hi);
    Alone(l, r, k);
    SplitSplice(l, k, b, c);
    Splice(l, r, k, k + 1, a.start, a.end, [b, c]);
    forall x ensures At(l', x) == if addr <= x < hi then None else At(l, x) {
      Halves(a, addr, hi, x);
    }
    BeginsPair(b, c);
    BeginsWithin(l, r, k, k + 1);
  }

  lemma SplitSplice(l: seq<Area>, k: nat, b: Area, c: Area)
    requires k < |l|
    ensures InsertAt(l[k := b], k + 1, c) == Replace(l, k, k + 1, [b, c]) && l[k..k + 1] == [l[k]]
  {
  }

  lemma Halves(a: Area, addr: int, hi: int, x: int)
    requires a.start < addr < hi < a.end
    ensures At([a.(end := addr), a.(start := hi)], x) == if addr <= x < hi then None else At([a], x)
  {
    var b, c := a.(end := addr), a.(start := hi);
    AtShort(a, b, b, x);
    AtShort(b, c, c, x);
    AtShort(c, c, c, x);
  }

  // ----- the code

  /** prev and cur are the neighbours at position k of the list. */
  ghost predicate Scanning(sp: Space, s: Scan, prev: VmArea?, cur: VmArea?)
    reads sp, sp.nodes
  {
    match s
    case Scan(_, _, k, _, _, _, _, _) =>
      && sp.Linked() && Progress(s, sp.areas)
      && k <= |sp.nodes|
      && cur == (if k < |sp.nodes| then sp.nodes[k] else null)
      && prev == (if k > 0 then sp.nodes[k - 1] else null)
  }

  /** cur is the area the scan has reached, as it was in the original list. */
  ghost predicate Reached(sp: Space, s: Scan, cur: VmArea)
    reads sp, cur
  {
    && s.k < |sp.nodes| && s.k < |sp.areas| && s.m < |s.l0|
    && cur == sp.nodes[s.k] && sp.areas[s.k] == s.l0[s.m]
    && cur.start == s.l0[s.m].start && cur.end == s.l0[s.m].end && cur.prot == s.l0[s.m].prot
    && cur.next == (if s.k + 1 < |sp.nodes| then sp.nodes[s.k + 1] else null)
  }

  lemma Current(sp: Space, s: Scan, cur: VmArea)
    requires sp.Linked() && s.k < |sp.nodes| && cur == sp.nodes[s.k]
    requires s.m <= |s.l0| && sp.areas[s.k..] == s.l0[s.m..] && forall i :: 0 <= i < |s.l0| ==> Good(s.l0[i], s.r)
    ensures Reached(sp, s, cur) && cur.start < cur.end
  {
    assert sp.Holds(s.k) && sp.areas[s.k] == sp.areas[s.k..][0] == s.l0[s.m];
    assert Good(s.l0[s.m], s.r);
  }

  lemma InRange(s: Scan, l: seq<Area>, r: Range, ret: int)
    requires WellFormed(s.l0, r) && s.r == Widened(r, s.hi) && s.addr < s.hi && Stopped(s, l, ret)
    ensures WellFormed(l, s.r) && (WellFormed(l, r) <==> r.lo <= s.hi || s.l0 == [])
    ensures ret == 0 ==> SeamsOutside(s.l0, l, s.addr, s.hi)
  {
    if ret == 0 {
      KeptSeams(s.l0, l, s.r, s.addr, s.hi);
      StaysInRange(s.l0, l, r, s.addr, s.hi);
    }
  }

  /** vm_area_unmap */
  method VmAreaUnmap(sp: Space, addr: int, length: int) returns (ret: int)
    requires sp.Valid() && OnPage(addr) && length > 0
    modifies sp, sp.nodes
    ensures sp.Linked() && forall n :: n in sp.nodes ==> n in old(sp.nodes) || fresh(n)
    ensures WellFormed(sp.areas, Widened(sp.range, addr + RoundUp(length)))
    ensures sp.Valid() <==> sp.range.lo <= addr + RoundUp(length) || old(sp.areas) == []
    ensures ret == 0 || ret == -1
    ensures ret == -1 <==> Splits(old(sp.areas), addr, addr + RoundUp(length)) && |old(sp.areas)| == MAX_AREAS
    ensures ret == -1 ==> sp.areas == old(sp.areas)
    ensures ret == 0 ==> Unmapped(old(sp.areas), sp.areas, addr, addr + RoundUp(length))
    ensures ret == 0 ==> SeamsOutside(old(sp.areas), sp.areas, addr, addr + RoundUp(length))
  {
    var count := sp.CountAreas();
    PageSum(addr, RoundUp(length));
    ghost var hi := addr + RoundUp(length);
    ghost var s := Scan(sp.areas, Widened(sp.range, hi), 0, 0, addr, hi, addr, addr);
    ret := UnmapAreas(sp, count, addr, RoundUp(length), s);
    InRange(s, sp.areas, sp.range, ret);
  }

  /** The loop. */
  method UnmapAreas(sp: Space, count: nat, addr: int, n: int, ghost first: Scan) returns (ret: int)
    requires sp.Linked() && count == |sp.areas| && addr + n == first.hi && n > 0
    requires Fixed(first.l0, first.r, addr, addr + n)
        && first == Scan(sp.areas, first.r, 0, 0, addr, addr + n, addr, addr)
    modifies sp, sp.nodes
    ensures sp.Linked() && forall m :: m in sp.nodes ==> m in old(sp.nodes) || fresh(m)
    ensures Stopped(first, sp.areas, ret)
  {
    var prev: VmArea?, cur := null, sp.head;
    var at, rest := addr, n;
    ghost var s := first;
    while cur != null && rest > 0
      invariant Scanning(sp, s, prev, cur) && s.at == at && at + rest == s.hi
      invariant s == first.(k := s.k, m := s.m, gone := s.gone, at := at)
      invariant forall m :: m in sp.nodes ==> m in old(sp.nodes)
      decreases |sp.nodes| - s.k
    {
      var stop;
      assert cur in sp.nodes && (prev != null ==> prev in sp.nodes);
      stop, ret, prev, cur, at, rest, s := OneArea(sp, count, prev, cur, at, rest, s);
      if stop {
        return ret;
      }
    }
    Finish(s, sp.areas);
    ret := 0;
  }

  /** The body of the loop. */
  method OneArea(sp: Space, count: nat, prev: VmArea?, cur: VmArea, at: int, rest: int, ghost s: Scan)
    returns (stop: bool, ret: int, prev': VmArea?, cur': VmArea?, at': int, rest': int, ghost s': Scan)
    requires Fixed(s.l0, s.r, s.addr, s.hi) && Scanning(sp, s, prev, cur)
    requires s.at == at && at + rest == s.hi && rest > 0 && count == |s.l0|
    modifies sp, prev, cur
    ensures sp.Linked() && forall n :: n in sp.nodes ==> n in old(sp.nodes) || (stop && fresh(n))
    ensures stop ==> Stopped(s, sp.areas, ret)
    ensures !stop ==> Scanning(sp, s', prev', cur') && at' + rest' == s'.hi && |sp.nodes| - s'.k < |old(sp.nodes)| - s.k
    ensures !stop ==> s' == s.(k := s'.k, m := s'.m, gone := s'.gone, at := at')
  {
    stop, ret, prev', cur', at', rest', s' := true, 0, prev, cur, at, rest, s;
    Current(sp, s, cur);
    if cur.start < at < cur.end {
      stop, ret, at', rest', s' := StartsInside(sp, count, cur, at, rest, s);
      prev', cur' := cur, cur.next;
    } else {
      stop, prev', cur', at', rest', s' := NotInside(sp, prev, cur, at, rest, s);
    }
  }

  /** The range does not start strictly inside cur. */
  method NotInside(sp: Space, prev: VmArea?, cur: VmArea, at: int, rest: int, ghost s: Scan)
    returns (stop: bool, prev': VmArea?, cur': VmArea?, at': int, rest': int, ghost s': Scan)
    requires Fixed(s.l0, s.r, s.addr, s.hi) && Scanning(sp, s, prev, cur) && Reached(sp, s, cur) && cur.start < cur.end
    requires s.at == at && at + rest == s.hi && rest > 0 && !(cur.start < at < cur.end)
    modifies sp, prev, cur
    ensures sp.Linked() && forall n :: n in sp.nodes ==> n in old(sp.nodes)
    ensures stop ==> Stopped(s, sp.areas, 0)
    ensures !stop ==> Scanning(sp, s', prev', cur') && at' + rest' == s'.hi && |sp.nodes| - s'.k < |old(sp.nodes)| - s.k
    ensures !stop ==> s' == s.(k := s'.k, m := s'.m, gone := s'.gone, at := at')
  {
    stop, prev', cur', at', rest', s' := true, prev, cur, at, rest, s;
    if at <= cur.start && at + rest < cur.end {
      MoveStart(sp, cur, at, rest, s);
    } else if at <= cur.start && at + rest >= cur.end {
      cur', s' := DropArea(sp, prev, cur, s);
      if cur' != null {
        stop := false;
        rest' := rest - (cur'.start - at);
        at' := cur'.start;
      }
    } else {
      Skip(s, sp.areas);
      s' := s.(k := s.k + 1, m := s.m + 1);
      stop, prev', cur' := false, cur, cur.next;
    }
  }

  /** The range starts strictly inside cur. */
  method StartsInside(sp: Space, count: nat, cur: VmArea, at: int, rest: int, ghost s: Scan)
    returns (stop: bool, ret: int, at': int, rest': int, ghost s': Scan)
    requires sp.Linked() && Fixed(s.l0, s.r, s.addr, s.hi) && Progress(s, sp.areas) && Reached(sp, s, cur)
    requires s.at == at && at + rest == s.hi && rest > 0 && count == |s.l0| && cur.start < at < cur.end
    modifies sp, cur
    ensures sp.Linked() && forall n :: n in sp.nodes ==> n in old(sp.nodes) || (stop && fresh(n))
    ensures stop ==> Stopped(s, sp.areas, ret)
    ensures !stop ==> Scanning(sp, s', cur, cur.next) && sp.nodes == old(sp.nodes) && at' == at && rest' == rest
    ensures !stop ==> s' == s.(k := s.k + 1, m := s.m + 1, gone := s'.gone)
  {
    stop, ret, at', rest', s' := true, 0, at, rest, s;
    if at + rest < cur.end {
      ret := CutHole(sp, count, cur, at, rest, s);
    } else {
      s' := LoseEnd(sp, cur, at, s);
      rest' := rest - (cur.end - at);
      at' := cur.end;
      stop := false;
    }
  }

  /** The range is strictly inside cur: the end of cur becomes a new area. */
  method CutHole(sp: Space, count: nat, cur: VmArea, at: int, rest: int, ghost s: Scan) returns (ret: int)
    requires sp.Linked() && Fixed(s.l0, s.r, s.addr, s.hi) && Progress(s, sp.areas) && Reached(sp, s, cur)
        && s.at == at && at + rest == s.hi && count == |s.l0|
    requires cur.start < at < at + rest < cur.end
    modifies sp, cur
    ensures sp.Linked() && forall n :: n in sp.nodes ==> n in old(sp.nodes) || fresh(n)
    ensures Stopped(s, sp.areas, ret)
  {
    ghost var l := sp.areas;
    Whole(s, l);
    if count >= MAX_AREAS {
      return -1;
    }
    SplitNode(sp, s.k, cur, at, at + rest);
    Hole(s, l, sp.areas);
    ret := 0;
  }

  method SplitNode(sp: Space, ghost k: nat, cur: VmArea, lo: int, hi: int)
    requires sp.Linked() && k < |sp.nodes| && sp.nodes[k] == cur
    modifies sp, cur
    ensures sp.Linked() && forall n :: n in sp.nodes ==> n in old(sp.nodes) || fresh(n)
    ensures sp.areas == InsertAt(old(sp.areas)[k := old(sp.areas)[k].(end := lo)], k + 1,
        old(sp.areas)[k].(start := hi))
  {
    assert sp.Holds(k);
    var n := sp.InsertAfter(k, cur, hi, cur.end, cur.prot);
    sp.SetEnd(k, cur, lo);
  }

  /** The range starts inside cur and goes on past it. */
  method LoseEnd(sp: Space, cur: VmArea, at: int, ghost s: Scan) returns (ghost s': Scan)
    requires sp.Linked() && Fixed(s.l0, s.r, s.addr, s.hi) && Progress(s, sp.areas) && Reached(sp, s, cur) && s.at == at
    requires cur.start < at < cur.end <= s.hi
    modifies sp`areas, cur
    ensures cur.end == at && sp.nodes == old(sp.nodes)
    ensures Scanning(sp, s', cur, cur.next) && s' == s.(k := s.k + 1, m := s.m + 1, gone := s'.gone)
  {
    ghost var l := sp.areas;
    sp.SetEnd(s.k, cur, at);
    Truncate(s, l, sp.areas);
    assert sp.Holds(s.k);
    s' := s.(k := s.k + 1, m := s.m + 1, gone := s.l0[s.m].end);
  }

  /** The range ends in front of cur or inside it. */
  method MoveStart(sp: Space, cur: VmArea, at: int, rest: int, ghost s: Scan)
    requires sp.Linked() && Fixed(s.l0, s.r, s.addr, s.hi) && Progress(s, sp.areas) && Reached(sp, s, cur)
        && s.at == at && at + rest == s.hi && rest > 0
    requires at <= cur.start && at + rest < cur.end
    modifies sp`areas, cur
    ensures sp.Linked() && sp.nodes == old(sp.nodes)
    ensures Stopped(s, sp.areas, 0)
  {
    ghost var l := sp.areas;
    sp.SetStart(s.k, cur, at + rest);
    Resume(s, l, sp.areas);
  }

  /** cur lies in the range: it leaves the list. */
  method DropArea(sp: Space, prev: VmArea?, cur: VmArea, ghost s: Scan) returns (next: VmArea?, ghost s': Scan)
    requires sp.Linked() && Fixed(s.l0, s.r, s.addr, s.hi) && Progress(s, sp.areas) && Reached(sp, s, cur)
    requires prev == if s.k > 0 then sp.nodes[s.k - 1] else null
    requires s.at <= cur.start && cur.end <= s.hi
    modifies sp, prev
    ensures sp.Linked() && |sp.nodes| < |old(sp.nodes)| && forall n :: n in sp.nodes ==> n in old(sp.nodes)
    ensures next == null ==> Stopped(s, sp.areas, 0)
    ensures next != null ==> Scanning(sp, s', prev, next) && s' == s.(m := s'.m, gone := s'.gone, at := next.start)
  {
    ghost var l := sp.areas;
    next := Unlink(sp, s.k, prev, cur);
    Dropped(sp, s, l, prev, next);
    s' := if s.m + 1 < |s.l0| then AfterDelete(s) else s;
  }

  lemma Dropped(sp: Space, s: Scan, l: seq<Area>, prev: VmArea?, next: VmArea?)
    requires Fixed(s.l0, s.r, s.addr, s.hi) && Progress(s, l) && s.m < |s.l0| && s.at <= s.l0[s.m].start
        && s.l0[s.m].end <= s.hi
    requires sp.Linked() && s.k < |l| && sp.areas == RemoveAt(l, s.k)
    requires prev == if s.k > 0 then sp.nodes[s.k - 1] else null
    requires next == if s.k < |sp.nodes| then sp.nodes[s.k] else null
    requires next != null ==> next.start == sp.areas[s.k].start
    ensures next == null ==> Stopped(s, sp.areas, 0)
    ensures next != null
        ==> s.m + 1 < |s.l0| && Scanning(sp, AfterDelete(s), prev, next) && AfterDelete(s).at == next.start
  {
    Delete(s, l, sp.areas);
  }

  /** cur leaves the list, by its predecessor's link or the head's. */
  method Unlink(sp: Space, ghost k: nat, prev: VmArea?, cur: VmArea) returns (next: VmArea?)
    requires sp.Linked() && k < |sp.nodes| && sp.nodes[k] == cur
    requires prev == if k > 0 then sp.nodes[k - 1] else null
    modifies sp, prev
    ensures sp.Linked() && sp.areas == RemoveAt(old(sp.areas), k)
    ensures |sp.nodes| == |old(sp.nodes)| - 1 && forall n :: n in sp.nodes ==> n in old(sp.nodes)
    ensures next == if k < |sp.nodes| then sp.nodes[k] else null
    ensures next != null ==> next.start == sp.areas[k].start
    ensures prev == if k > 0 then sp.nodes[k - 1] else null
  {
    if prev != null {
      sp.UnlinkAfter(k - 1, prev);
      assert sp.Holds(k - 1);
      next := prev.next;
    } else {
      sp.PopFront();
      next := sp.head;
    }
    assert k < |sp.nodes| ==> sp.Holds(k);
  }
}
