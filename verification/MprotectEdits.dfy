/** What vm_area_mprotect of Assignment3/mmap.c has to do to the list of areas, and what its
    edits of a few areas do, on values. */
module MprotectEdits {
  import opened Options
  import opened AreaList

  /** The area in front of area k touches it and has protection prot. */
  predicate PrevHas(l: seq<Area>, k: nat, prot: int)
    requires k < |l|
  {
    k > 0 && l[k - 1].end == l[k].start && l[k - 1].prot == prot
  }

  /** The area behind area k touches it and has protection prot. */
  predicate NextHas(l: seq<Area>, k: nat, prot: int)
    requires k < |l|
  {
    k + 1 < |l| && l[k + 1].start == l[k].end && l[k + 1].prot == prot
  }

  /** How many areas the call adds before it takes any away, if addr is in area k. */
  function NewAreas(l: seq<Area>, k: nat, addr: int, hi: int, prot: int): nat
    requires k < |l|
  {
    if l[k].prot == prot then 0
    else if l[k].start < addr then
      if hi < l[k].end then 2
      else if hi == l[k].end && NextHas(l, k, prot) then 0
      else 1
    else if hi < l[k].end && !PrevHas(l, k, prot) then 1
    else 0
  }

  /** The limit on the areas leaves room for the call. */
  ghost predicate Room(l: seq<Area>, addr: int, hi: int, prot: int) {
    forall k :: 0 <= k < |l| && Contains(l[k], addr) ==> |l| + NewAreas(l, k, addr, hi, prot) <= MAX_AREAS
  }

  /** Where the call leaves two areas with protection prot side by side: it does not look
      back from an area that has prot already and goes on behind the range, nor forward from
      one in which the range starts. */
  ghost predicate Skipped(l: seq<Area>, addr: int, hi: int, prot: int, x: int) {
    || (addr <= x < hi && Outlasts(l, x, hi, prot) && (x == addr ==> Seam(l, addr)))
    || (x == hi && Seam(l, hi) && exists k :: 0 <= k < |l| && l[k].start < addr && l[k].end == hi && l[k].prot == prot)
  }

  /** An area with protection prot starts at x and goes on behind hi. */
  ghost predicate Outlasts(l: seq<Area>, x: int, hi: int, prot: int) {
    exists k :: 0 <= k < |l| && l[k].start == x && hi < l[k].end && l[k].prot == prot
  }

  /** In the range and at its ends all areas that could be one are one, but for those. */
  ghost predicate Joined(before: seq<Area>, after: seq<Area>, addr: int, hi: int, prot: int) {
    forall x :: Seam(after, x) <==> if addr <= x <= hi then Skipped(before, addr, hi, prot, x) else Seam(before, x)
  }

  /** What a call promises about the list before and after, with the length rounded:
      all or nothing, and all exactly when the range is mapped and there is room. */
  ghost predicate Outcome(before: seq<Area>, after: seq<Area>, addr: int, length: int, prot: int, ret: int) {
    && (ret == 0 || ret == -1)
    && (ret == -1 ==> after == before)
    && (ret == 0 ==> Updated(before, after, addr, addr + length, Some(prot)))
    && (ret == 0 ==> Joined(before, after, addr, addr + length, prot))
    && (ret == 0 <==> Covered(before, addr, addr + length) && Room(before, addr, addr + length, prot))
  }

  // ----- facts about covered ranges

  /** The area that follows a fully covered stretch starts where the stretch ends. */
  lemma NextAdjacent(l: seq<Area>, r: Range, k: nat, hi: int)
    requires WellFormed(l, r) && k < |l| && l[k].end < hi && Covered(l, l[k].end, hi)
    ensures k + 1 < |l| && l[k + 1].start == l[k].end
  {
    var x := l[k].end;
    var i := AtWitness(l, x);
    Ordered(l, r, i, k);
    if k + 1 < |l| {
      Ordered(l, r, k, k + 1);
      Ordered(l, r, k + 1, i);
    }
  }

  /** Coverage of a range in bytes is coverage of its pages. */
  lemma CoveredPages(l: seq<Area>, r: Range, addr: int, length: int)
    requires WellFormed(l, r) && OnPage(addr) && length > 0
    ensures Covered(l, addr, addr + length) <==> Covered(l, addr, addr + RoundUp(length))
  {
    if Covered(l, addr, addr + length) {
      var i := AtWitness(l, addr + length - 1);
      assert Good(l[i], r);
      RoundUpBelow(addr, length, l[i].end);
      forall x | addr + length <= x < addr + RoundUp(length) ensures At(l, x).Some? {
        AtIndex(l, i, x);
      }
    }
  }

  /** The area in which a covered range starts. */
  lemma FirstArea(l: seq<Area>, r: Range, k: nat, addr: int, hi: int)
    requires WellFormed(l, r) && k <= |l| && addr < hi && Covered(l, addr, hi)
    requires forall i :: 0 <= i < k ==> l[i].end <= addr
    requires k < |l| ==> addr < l[k].end
    ensures k < |l| && Contains(l[k], addr)
  {
    var i := AtWitness(l, addr);
    if k < |l| {
      Ordered(l, r, k, i);
    }
  }

  /** Only one area contains addr, so it alone decides whether there is room. */
  lemma RoomAt(l: seq<Area>, r: Range, k: nat, addr: int, hi: int, prot: int)
    requires WellFormed(l, r) && k < |l| && Contains(l[k], addr)
    ensures Room(l, addr, hi, prot) <==> |l| + NewAreas(l, k, addr, hi, prot) <= MAX_AREAS
  {
    forall i | 0 <= i < |l| && Contains(l[i], addr) ensures i == k {
      Ordered(l, r, i, k);
    }
  }

  /** Behind an area that has the protection already, a call needs no room. */
  lemma RoomBehind(l: seq<Area>, r: Range, i: nat, addr: int, hi: int, prot: int)
    requires WellFormed(l, r) && i < |l| && l[i].end == addr && l[i].prot == prot
    requires addr < hi && Covered(l, addr, hi)
    ensures Room(l, addr, hi, prot)
  {
    NextAdjacent(l, r, i, hi);
    Ordered(l, r, i, i + 1);
    RoomAt(l, r, i + 1, addr, hi, prot);
  }

  // ----- the edits

  /** Areas i up to j, which cover [w0, w1) without a hole, are replaced by areas that
      say the same except on [lo, hi). */
  ghost predicate Repaints(l: seq<Area>, r: Range, i: nat, j: nat, w0: int, w1: int, mid: seq<Area>, lo: int, hi: int,
                           prot: int)
    requires i <= j <= |l|
  {
    && Window(l, i, j, w0, w1)
    && |l| + |mid| <= MAX_AREAS + (j - i)
    && Sorted(mid)
    && (forall n :: 0 <= n < |mid| ==> Good(mid[n], r) && w0 <= mid[n].start && mid[n].end <= w1)
    && w0 <= lo && hi <= w1
    && (forall x :: w0 <= x < w1 ==> At(mid, x) == if lo <= x < hi then Some(prot) else At(l[i..j], x))
  }

  lemma Repaint(l: seq<Area>, r: Range, i: nat, j: nat, w0: int, w1: int, mid: seq<Area>, lo: int, hi: int, prot: int)
    requires WellFormed(l, r) && i <= j <= |l| && Repaints(l, r, i, j, w0, w1, mid, lo, hi, prot)
    ensures WellFormed(Replace(l, i, j, mid), r)
    ensures Updated(l, Replace(l, i, j, mid), lo, hi, Some(prot))
    ensures forall x :: Begins(Replace(l, i, j, mid), x) <==> if w0 <= x < w1 then Begins(mid, x) else Begins(l, x)
  {
    Splice(l, r, i, j, w0, w1, mid);
  }

  /** [lo, hi) is cut out of area k, leaving a head and a tail where there are any. */
  lemma CutOut(l: seq<Area>, r: Range, k: nat, lo: int, hi: int, prot: int, mid: seq<Area>)
    requires WellFormed(l, r) && k < |l| && OnPage(lo) && OnPage(hi)
    requires l[k].start <= lo < hi <= l[k].end
    requires mid == (if l[k].start < lo then [l[k].(end := lo)] else [])
                 + [Area(lo, hi, prot)]
                 + (if hi < l[k].end then [l[k].(start := hi)] else [])
    requires |l| + |mid| <= MAX_AREAS + 1
    ensures WellFormed(Replace(l, k, k + 1, mid), r)
    ensures Updated(l, Replace(l, k, k + 1, mid), lo, hi, Some(prot))
  {
    var c := l[k];
    assert Good(c, r);
    assert l[k..k + 1] == [c];
    forall x ensures At(mid, x) == if lo <= x < hi then Some(prot) else At([c], x) {
      CutView(c, lo, hi, prot, mid, x);
    }
    KeepWindow(l, r, k, k + 1);
    Repaint(l, r, k, k + 1, c.start, c.end, mid, lo, hi, prot);
  }

  lemma KeepWindow(l: seq<Area>, r: Range, i: nat, j: nat)
    requires WellFormed(l, r) && i < j <= |l|
    ensures Window(l, i, j, l[i].start, l[j - 1].end)
  {
    assert forall n :: i <= n < j ==> Good(l[n], r);
  }

  /** Two or three adjacent areas, of which the outer ones may have protection prot
      already, are replaced by mid, which gives prot to [lo, hi). */
  lemma Join(l: seq<Area>, r: Range, i: nat, j: nat, mid: seq<Area>, lo: int, hi: int, prot: int)
    requires WellFormed(l, r) && i < j <= |l| && i + 1 <= j <= i + 3 && 1 <= |mid| <= 2 && |mid| <= j - i
    requires forall n :: i < n < j ==> l[n - 1].end == l[n].start
    requires mid[0].start == l[i].start && mid[|mid| - 1].end == l[j - 1].end
    requires |mid| == 2 ==> mid[0].end == mid[1].start
    requires forall n :: 0 <= n < |mid| ==> mid[n].start < mid[n].end && OnPage(mid[n].start) && OnPage(mid[n].end)
    requires l[i].start <= lo < hi <= l[j - 1].end
    requires forall x :: l[i].start <= x < l[j - 1].end
               ==> At(mid, x) == if lo <= x < hi then Some(prot) else At(l[i..j], x)
    ensures WellFormed(Replace(l, i, j, mid), r)
    ensures Updated(l, Replace(l, i, j, mid), lo, hi, Some(prot))
    ensures forall x ::
              Begins(Replace(l, i, j, mid), x)
              <==> if l[i].start <= x < l[j - 1].end then Begins(mid, x) else Begins(l, x)
  {
    KeepWindow(l, r, i, j);
    JoinGood(l, r, i, j, mid);
    Repaint(l, r, i, j, l[i].start, l[j - 1].end, mid, lo, hi, prot);
  }

  lemma JoinGood(l: seq<Area>, r: Range, i: nat, j: nat, mid: seq<Area>)
    requires WellFormed(l, r) && i < j <= |l| && 1 <= |mid| <= 2
    requires mid[0].start == l[i].start && mid[|mid| - 1].end == l[j - 1].end
    requires |mid| == 2 ==> mid[0].end == mid[1].start
    requires forall n :: 0 <= n < |mid| ==> mid[n].start < mid[n].end && OnPage(mid[n].start) && OnPage(mid[n].end)
    ensures Sorted(mid)
    ensures forall n :: 0 <= n < |mid| ==> Good(mid[n], r) && l[i].start <= mid[n].start && mid[n].end <= l[j - 1].end
  {
    Ordered(l, r, i, j - 1);
    forall n | 0 <= n < |mid| ensures Good(mid[n], r) && l[i].start <= mid[n].start && mid[n].end <= l[j - 1].end {
      if n > 0 {
        assert n == |mid| - 1;
      }
    }
  }

  lemma SameProt(l: seq<Area>, r: Range, k: nat, lo: int, hi: int)
    requires WellFormed(l, r) && k < |l| && l[k].start <= lo && hi <= l[k].end
    ensures Updated(l, l, lo, hi, Some(l[k].prot))
  {
    Ordered(l, r, k, k);
    forall x | lo <= x < hi ensures At(l, x) == Some(l[k].prot) {
      AtIndex(l, k, x);
    }
  }

  lemma Chain(l0: seq<Area>, l1: seq<Area>, l2: seq<Area>, lo: int, mid: int, hi: int, prot: int)
    requires lo <= mid <= hi
    requires Updated(l0, l1, lo, mid, Some(prot)) && Updated(l1, l2, mid, hi, Some(prot))
    ensures Updated(l0, l2, lo, hi, Some(prot))
  {
  }

  lemma MoveDown(l: seq<Area>, r: Range, k: nat, addr: int, mid: seq<Area>)
    requires WellFormed(l, r) && k + 1 < |l| && OnPage(addr)
    requires l[k].start < addr < l[k].end == l[k + 1].start
    requires mid == [l[k].(end := addr), l[k + 1].(start := addr)]
    ensures WellFormed(Replace(l, k, k + 2, mid), r)
    ensures Updated(l, Replace(l, k, k + 2, mid), addr, l[k].end, Some(l[k + 1].prot))
    ensures forall x ::
              Begins(Replace(l, k, k + 2, mid), x)
              <==> if l[k].start <= x < l[k + 1].end then Begins(mid, x) else Begins(l, x)
  {
    var a, b := l[k], l[k + 1];
    Ordered(l, r, k, k + 1);
    assert l[k..k + 2] == [a, b];
    forall x ensures At(mid, x) == if addr <= x < a.end then Some(b.prot) else At([a, b], x) {
      AtShort(a, b, b, x);
      AtShort(b, b, b, x);
      AtShort(mid[0], mid[1], b, x);
      AtShort(mid[1], b, b, x);
    }
    Join(l, r, k, k + 2, mid, addr, a.end, b.prot);
  }

  lemma MoveUp(l: seq<Area>, r: Range, k: nat, hi: int, mid: seq<Area>)
    requires WellFormed(l, r) && 0 < k < |l| && OnPage(hi)
    requires l[k - 1].end == l[k].start < hi < l[k].end
    requires mid == [l[k - 1].(end := hi), l[k].(start := hi)]
    ensures WellFormed(Replace(l, k - 1, k + 1, mid), r)
    ensures Updated(l, Replace(l, k - 1, k + 1, mid), l[k].start, hi, Some(l[k - 1].prot))
    ensures forall x ::
              Begins(Replace(l, k - 1, k + 1, mid), x)
              <==> if l[k - 1].start <= x < l[k].end then Begins(mid, x) else Begins(l, x)
  {
    var a, b := l[k - 1], l[k];
    Ordered(l, r, k - 1, k);
    assert l[k - 1..k + 1] == [a, b];
    forall x ensures At(mid, x) == if b.start <= x < hi then Some(a.prot) else At([a, b], x) {
      AtShort(a, b, b, x);
      AtShort(b, b, b, x);
      AtShort(mid[0], mid[1], b, x);
      AtShort(mid[1], b, b, x);
    }
    Join(l, r, k - 1, k + 1, mid, b.start, hi, a.prot);
  }

  /** Adjacent areas i up to j, all but area k with protection prot, become one. */
  lemma Fuse(l: seq<Area>, r: Range, i: nat, j: nat, k: nat, prot: int, one: Area)
    requires WellFormed(l, r) && i <= k < j <= |l| && j <= i + 3
    requires forall n :: i < n < j ==> l[n - 1].end == l[n].start
    requires forall n :: i <= n < j && n != k ==> l[n].prot == prot
    requires one == Area(l[i].start, l[j - 1].end, prot)
    ensures WellFormed(Replace(l, i, j, [one]), r)
    ensures Updated(l, Replace(l, i, j, [one]), l[k].start, l[k].end, Some(prot))
    ensures forall x ::
              Begins(Replace(l, i, j, [one]), x)
              <==> if one.start <= x < one.end then x == one.start else Begins(l, x)
  {
    Ordered(l, r, i, j - 1);
    Ordered(l, r, i, k);
    Ordered(l, r, k, j - 1);
    forall x | one.start <= x < one.end
      ensures At([one], x) == if l[k].start <= x < l[k].end then Some(prot) else At(l[i..j], x)
    {
      AtShort(one, one, one, x);
      var m: seq<Area> := l[i..j];
      AtShort(m[0], m[|m| - 1], m[|m| - 1], x);
      AtShort(m[|m| - 1], one, one, x);
      if |m| == 3 {
        assert m == [m[0], m[1], m[2]];
        AtShort(m[0], m[1], m[2], x);
        AtShort(m[1], m[2], m[2], x);
      } else if |m| == 2 {
        assert m == [m[0], m[1]];
      } else {
        assert m == [m[0]];
      }
    }
    Join(l, r, i, j, [one], l[k].start, l[k].end, prot);
    BeginsOne(one);
  }

  lemma Behind(l: seq<Area>, k: nat, a: Area, b: Area)
    requires k < |l|
    ensures InsertAt(l, k + 1, b)[k := a] == Replace(l, k, k + 1, [a, b])
  {
  }

  lemma InThree(l: seq<Area>, k: nat, a: Area, b: Area, c: Area)
    requires k < |l|
    ensures InsertAt(InsertAt(l, k + 1, c), k + 1, b)[k := a] == Replace(l, k, k + 1, [a, b, c])
  {
  }

  lemma InFront(l: seq<Area>, k: nat, a: Area, b: Area)
    requires k < |l|
    ensures InsertAt(l, k, a)[k + 1 := b] == Replace(l, k, k + 1, [a, b])
  {
  }

  // ----- seams

  /** No area starts inside [lo, hi), which has protection prot, and none that starts at its
      ends touches one with the same protection. */
  ghost predicate Clean(l: seq<Area>, lo: int, hi: int, prot: int) {
    && (forall x :: lo < x < hi ==> !Begins(l, x))
    && (Begins(l, lo) ==> At(l, lo - 1) != Some(prot))
    && (Begins(l, hi) ==> At(l, hi) != Some(prot))
  }

  /** The range lies in area k, and what it was split or joined into is clean. */
  lemma JoinedOne(l: seq<Area>, l': seq<Area>, r: Range, k: nat, lo: int, hi: int, prot: int)
    requires WellFormed(l, r) && k < |l| && l[k].start <= lo < hi <= l[k].end
    requires l[k].prot == prot ==> l[k].start == lo && l[k].end == hi
    requires Updated(l, l', lo, hi, Some(prot)) && Clean(l', lo, hi, prot)
    requires forall x :: x < lo || x > hi ==> (Begins(l', x) <==> Begins(l, x))
    ensures Joined(l, l', lo, hi, prot)
  {
    forall i | 0 <= i < |l| && (lo <= l[i].start < hi || l[i].end == hi) ensures i == k {
      Ordered(l, r, i, k);
    }
    forall x ensures Seam(l', x) <==> if lo <= x <= hi then Skipped(l, lo, hi, prot, x) else Seam(l, x) {
    }
  }

  /** The range lies in area k, which has the protection and is not all of the range. */
  lemma JoinedSame(l: seq<Area>, r: Range, k: nat, lo: int, hi: int)
    requires WellFormed(l, r) && k < |l| && l[k].start <= lo < hi <= l[k].end
    requires l[k].start < lo || hi < l[k].end
    ensures Joined(l, l, lo, hi, l[k].prot)
  {
    var prot := l[k].prot;
    forall i | 0 <= i < |l| && (lo <= l[i].start < hi || l[i].end == hi) ensures i == k {
      Ordered(l, r, i, k);
    }
    forall x | lo <= x <= hi ensures Seam(l, x) <==> Skipped(l, lo, hi, prot, x) {
      if Seam(l, x) {
        var i :| 0 <= i < |l| && l[i].start == x;
        Ordered(l, r, i, k);
      }
    }
  }

  /** The area that starts where area k ends. */
  lemma NextStart(l: seq<Area>, r: Range, k: nat)
    requires WellFormed(l, r) && k < |l|
    ensures Begins(l, l[k].end) <==> k + 1 < |l| && l[k + 1].start == l[k].end
    ensures k + 1 < |l| && l[k + 1].start == l[k].end ==> At(l, l[k].end) == Some(l[k + 1].prot)
  {
    forall i | 0 <= i < |l| && i != k + 1 ensures l[i].start != l[k].end {
      Ordered(l, r, i, k);
      if k + 1 < |l| {
        Ordered(l, r, k, k + 1);
        Ordered(l, r, k + 1, i);
      }
    }
    if k + 1 < |l| && l[k + 1].start == l[k].end {
      BeginsMapped(l, r, k + 1);
    }
  }

  /** Inside area c the areas start where it does, at lo and at hi. */
  ghost predicate CutStarts(l: seq<Area>, l': seq<Area>, c: Area, lo: int, hi: int) {
    forall x :: Begins(l', x) <==> if Contains(c, x) then x == c.start || x == lo || x == hi else Begins(l, x)
  }

  lemma CutView(c: Area, lo: int, hi: int, prot: int, mid: seq<Area>, x: int)
    requires c.start <= lo < hi <= c.end
    requires mid == (if c.start < lo then [c.(end := lo)] else [])
                 + [Area(lo, hi, prot)]
                 + (if hi < c.end then [c.(start := hi)] else [])
    ensures At(mid, x) == if lo <= x < hi then Some(prot) else At([c], x)
  {
    AtShort(c, c, c, x);
    AtShort(mid[0], mid[if |mid| > 1 then 1 else 0], mid[|mid| - 1], x);
    AtShort(mid[|mid| - 1], c, c, x);
  }

  lemma CutOutStarts(l: seq<Area>, r: Range, k: nat, lo: int, hi: int, prot: int, mid: seq<Area>)
    requires WellFormed(l, r) && k < |l| && OnPage(lo) && OnPage(hi)
    requires l[k].start <= lo < hi <= l[k].end
    requires mid == (if l[k].start < lo then [l[k].(end := lo)] else [])
                 + [Area(lo, hi, prot)]
                 + (if hi < l[k].end then [l[k].(start := hi)] else [])
    ensures CutStarts(l, Replace(l, k, k + 1, mid), l[k], lo, hi)
  {
    Alone(l, r, k);
    forall x
      ensures Begins(Replace(l, k, k + 1, mid), x)
         <==> if Contains(l[k], x) then x == l[k].start || x == lo || x == hi else Begins(l, x)
    {
      SpliceBegins(l, r, k, k + 1, l[k].start, l[k].end, mid, x);
      if Contains(l[k], x) {
        CutBegins(l[k], lo, hi, prot, mid, x);
      }
    }
  }

  lemma CutBegins(c: Area, lo: int, hi: int, prot: int, mid: seq<Area>, x: int)
    requires c.start <= lo < hi <= c.end && x < c.end
    requires mid == (if c.start < lo then [c.(end := lo)] else [])
                 + [Area(lo, hi, prot)]
                 + (if hi < c.end then [c.(start := hi)] else [])
    ensures Begins(mid, x) <==> x == c.start || x == lo || x == hi
  {
    var m := if c.start < lo then 1 else 0;
    assert mid[m] == Area(lo, hi, prot) && mid[0].start == c.start;
    assert hi < c.end ==> mid[m + 1].start == hi;
    assert |mid| == m + 1 + if hi < c.end then 1 else 0;
  }

  lemma CutClean(l: seq<Area>, l': seq<Area>, r: Range, k: nat, lo: int, hi: int, prot: int)
    requires WellFormed(l, r) && k < |l| && l[k].start <= lo < hi <= l[k].end && l[k].prot != prot
    requires (lo == l[k].start ==> !PrevHas(l, k, prot)) && (hi == l[k].end ==> !NextHas(l, k, prot))
    requires Updated(l, l', lo, hi, Some(prot))
    requires CutStarts(l, l', l[k], lo, hi)
    ensures Clean(l', lo, hi, prot)
    ensures forall x :: x < lo || x > hi ==> (Begins(l', x) <==> Begins(l, x))
  {
    BeginsWithin(l, r, k, k + 1);
    Ordered(l, r, k, k);
    if lo > l[k].start {
      AtIndex(l, k, lo - 1);
    } else {
      BeginsMapped(l, r, k);
    }
    if hi < l[k].end {
      AtIndex(l, k, hi);
    } else {
      NextStart(l, r, k);
    }
  }

  lemma CutJoined(l: seq<Area>, r: Range, k: nat, lo: int, hi: int, prot: int, mid: seq<Area>)
    requires WellFormed(l, r) && k < |l| && OnPage(lo) && OnPage(hi)
    requires l[k].start <= lo < hi <= l[k].end && l[k].prot != prot
    requires mid == (if l[k].start < lo then [l[k].(end := lo)] else [])
                 + [Area(lo, hi, prot)]
                 + (if hi < l[k].end then [l[k].(start := hi)] else [])
    requires |l| + |mid| <= MAX_AREAS + 1
    requires (lo == l[k].start ==> !PrevHas(l, k, prot)) && (hi == l[k].end ==> !NextHas(l, k, prot))
    ensures Joined(l, Replace(l, k, k + 1, mid), lo, hi, prot)
  {
    CutOut(l, r, k, lo, hi, prot, mid);
    CutOutStarts(l, r, k, lo, hi, prot, mid);
    CutClean(l, Replace(l, k, k + 1, mid), r, k, lo, hi, prot);
    JoinedOne(l, Replace(l, k, k + 1, mid), r, k, lo, hi, prot);
  }

  lemma DownJoined(l: seq<Area>, r: Range, k: nat, addr: int, mid: seq<Area>)
    requires WellFormed(l, r) && k + 1 < |l| && OnPage(addr)
    requires l[k].start < addr < l[k].end == l[k + 1].start && l[k].prot != l[k + 1].prot
    requires mid == [l[k].(end := addr), l[k + 1].(start := addr)]
    ensures Joined(l, Replace(l, k, k + 2, mid), addr, l[k].end, l[k + 1].prot)
  {
    MoveDown(l, r, k, addr, mid);
    Ordered(l, r, k, k + 1);
    BeginsPair(mid[0], mid[1]);
    BeginsWithin(l, r, k, k + 2);
    AtIndex(l, k, addr - 1);
    JoinedOne(l, Replace(l, k, k + 2, mid), r, k, addr, l[k].end, l[k + 1].prot);
  }

  lemma UpJoined(l: seq<Area>, r: Range, k: nat, hi: int, mid: seq<Area>)
    requires WellFormed(l, r) && 0 < k < |l| && OnPage(hi)
    requires l[k - 1].end == l[k].start < hi < l[k].end && l[k - 1].prot != l[k].prot
    requires mid == [l[k - 1].(end := hi), l[k].(start := hi)]
    ensures Joined(l, Replace(l, k - 1, k + 1, mid), l[k].start, hi, l[k - 1].prot)
  {
    MoveUp(l, r, k, hi, mid);
    Ordered(l, r, k - 1, k);
    BeginsPair(mid[0], mid[1]);
    BeginsWithin(l, r, k - 1, k + 1);
    AtIndex(l, k, hi);
    JoinedOne(l, Replace(l, k - 1, k + 1, mid), r, k, l[k].start, hi, l[k - 1].prot);
  }

  /** Area k with the protection, and one with each neighbour that touches it and has that. */
  function Fused(l: seq<Area>, k: nat, prot: int): seq<Area>
    requires k < |l|
  {
    var i := if PrevHas(l, k, prot) then k - 1 else k;
    var j := if NextHas(l, k, prot) then k + 2 else k + 1;
    Replace(l, i, j, [Area(l[i].start, l[j - 1].end, prot)])
  }

  /** It is joined with one neighbour after the other. */
  lemma FusedSteps(l: seq<Area>, k: nat, prot: int)
    requires k < |l|
    ensures PrevHas(l, k, prot) ==>
              var l1 := RemoveAt(l, k)[k - 1 := l[k - 1].(end := l[k].end)];
              Fused(l, k, prot)
              == if NextHas(l, k, prot) then Replace(l1, k - 1, k + 1, [l1[k - 1].(end := l1[k].end)]) else l1
    ensures !PrevHas(l, k, prot) ==>
              var l1 := l[k := l[k].(prot := prot)];
              Fused(l, k, prot)
              == if NextHas(l, k, prot) then Replace(l1, k, k + 2, [l1[k].(end := l1[k + 1].end)]) else l1
  {
  }

  lemma FusedJoined(l: seq<Area>, r: Range, k: nat, prot: int)
    requires WellFormed(l, r) && k < |l|
    ensures Updated(l, Fused(l, k, prot), l[k].start, l[k].end, Some(prot))
    ensures Joined(l, Fused(l, k, prot), l[k].start, l[k].end, prot)
  {
    var i := if PrevHas(l, k, prot) then k - 1 else k;
    var j := if NextHas(l, k, prot) then k + 2 else k + 1;
    FuseJoined(l, r, i, j, k, prot, Area(l[i].start, l[j - 1].end, prot));
  }

  /** Area k has become one with each neighbour that touches it and has the protection. */
  lemma FuseJoined(l: seq<Area>, r: Range, i: nat, j: nat, k: nat, prot: int, one: Area)
    requires WellFormed(l, r) && k < |l|
    requires i == (if PrevHas(l, k, prot) then k - 1 else k) && j == (if NextHas(l, k, prot) then k + 2 else k + 1)
    requires one == Area(l[i].start, l[j - 1].end, prot)
    ensures WellFormed(Replace(l, i, j, [one]), r)
    ensures Updated(l, Replace(l, i, j, [one]), l[k].start, l[k].end, Some(prot))
    ensures Joined(l, Replace(l, i, j, [one]), l[k].start, l[k].end, prot)
  {
    Fuse(l, r, i, j, k, prot, one);
    FuseClean(l, Replace(l, i, j, [one]), r, i, j, k, prot);
    JoinedOne(l, Replace(l, i, j, [one]), r, k, l[k].start, l[k].end, prot);
  }

  lemma FuseClean(l: seq<Area>, l': seq<Area>, r: Range, i: nat, j: nat, k: nat, prot: int)
    requires WellFormed(l, r) && k < |l|
    requires i == (if PrevHas(l, k, prot) then k - 1 else k) && j == (if NextHas(l, k, prot) then k + 2 else k + 1)
    requires Updated(l, l', l[k].start, l[k].end, Some(prot))
    requires forall x ::
               Begins(l', x) <==> if l[i].start <= x < l[j - 1].end then x == l[i].start else Begins(l, x)
    ensures Clean(l', l[k].start, l[k].end, prot)
    ensures forall x :: x < l[k].start || x > l[k].end ==> (Begins(l', x) <==> Begins(l, x))
  {
    FuseStarts(l, l', r, i, j, k);
    BeginsMapped(l, r, k);
    NextStart(l, r, k);
    Ordered(l, r, i, k);
    Ordered(l, r, k, j - 1);
  }

  lemma FuseStarts(l: seq<Area>, l': seq<Area>, r: Range, i: nat, j: nat, k: nat)
    requires WellFormed(l, r) && i <= k < j <= |l| && k - 1 <= i && j <= k + 2
    requires j == k + 2 ==> l[k + 1].start == l[k].end
    requires forall x ::
               Begins(l', x) <==> if l[i].start <= x < l[j - 1].end then x == l[i].start else Begins(l, x)
    ensures forall x :: x < l[k].start || x > l[k].end ==> (Begins(l', x) <==> Begins(l, x))
  {
    BeginsWithin(l, r, i, j);
    Ordered(l, r, i, k);
    Ordered(l, r, k, j - 1);
  }

  // ----- the rest of the range

  /** The range has been done up to the end of area k; area i of the list has now the
      protection and ends there, and nothing is left to be joined in front of that. */
  ghost predicate FirstPart(l: seq<Area>, l1: seq<Area>, k: nat, i: nat, addr: int, prot: int) {
    && k < |l| && i < |l1| && l[k].start <= addr < l[k].end
    && l1[i].end == l[k].end && l1[i].prot == prot && l1[i + 1..] == l[k + 1..]
    && Updated(l, l1, addr, l[k].end, Some(prot))
    && (forall x :: x < l[k].end ==> (Seam(l1, x) <==> x < addr && Seam(l, x)))
  }

  lemma FirstPartOf(l: seq<Area>, l1: seq<Area>, r: Range, k: nat, i: nat, addr: int, prot: int)
    requires WellFormed(l, r) && k < |l| && i < |l1| && l[k].start <= addr < l[k].end
    requires l1[i].end == l[k].end && l1[i].prot == prot && l1[i + 1..] == l[k + 1..]
    requires Updated(l, l1, addr, l[k].end, Some(prot))
    requires forall x :: x < addr ==> (Begins(l1, x) <==> Begins(l, x))
    requires forall x :: addr < x < l[k].end ==> !Begins(l1, x)
    requires Begins(l1, addr) ==> At(l1, addr - 1) != Some(prot)
    ensures FirstPart(l, l1, k, i, addr, prot)
  {
  }

  lemma SuffixBegins(l: seq<Area>, r: Range, k: nat, x: int)
    requires WellFormed(l, r) && k < |l| && x >= l[k].end
    ensures Begins(l, x) <==> Begins(l[k + 1..], x)
  {
    if Begins(l, x) {
      var n :| 0 <= n < |l| && l[n].start == x;
      Ordered(l, r, n, k);
      assert l[k + 1..][n - (k + 1)].start == x;
    }
    if Begins(l[k + 1..], x) {
      var n :| 0 <= n < |l[k + 1..]| && l[k + 1..][n].start == x;
      assert l[k + 1 + n].start == x;
    }
  }

  lemma SuffixOutlasts(l: seq<Area>, r: Range, k: nat, x: int, hi: int, prot: int)
    requires WellFormed(l, r) && k < |l| && x >= l[k].end
    ensures Outlasts(l, x, hi, prot) <==> Outlasts(l[k + 1..], x, hi, prot)
  {
    var post := l[k + 1..];
    if Outlasts(l, x, hi, prot) {
      var n :| 0 <= n < |l| && l[n].start == x && hi < l[n].end && l[n].prot == prot;
      Ordered(l, r, n, k);
      assert post[n - (k + 1)] == l[n];
    }
    if Outlasts(post, x, hi, prot) {
      var n :| 0 <= n < |post| && post[n].start == x && hi < post[n].end && post[n].prot == prot;
      assert l[k + 1 + n] == post[n];
    }
  }

  /** What has been done for the two parts has been done for all of the range. */
  lemma JoinedChain(l: seq<Area>, l1: seq<Area>, l2: seq<Area>, r: Range, k: nat, i: nat, addr: int, hi: int, prot: int)
    requires WellFormed(l, r) && WellFormed(l1, r) && FirstPart(l, l1, k, i, addr, prot) && l[k].end < hi
    requires Joined(l1, l2, l[k].end, hi, prot)
    ensures Joined(l, l2, addr, hi, prot)
  {
    var end := l[k].end;
    forall x ensures Seam(l2, x) <==> if addr <= x <= hi then Skipped(l, addr, hi, prot, x) else Seam(l, x) {
      if addr <= x < end {
        NoneSkipped(l, r, k, addr, hi, prot, x);
      } else if end <= x {
        SuffixBegins(l, r, k, x);
        SuffixBegins(l1, r, i, x);
        if x <= hi {
          SkippedBehind(l, l1, r, k, i, addr, hi, prot, x);
        }
      }
    }
  }

  lemma RestDone(l: seq<Area>, l1: seq<Area>, l2: seq<Area>, r: Range, k: nat, i: nat, addr: int, hi: int, rest: int,
                 prot: int)
    requires WellFormed(l, r) && WellFormed(l1, r) && FirstPart(l, l1, k, i, addr, prot)
    requires rest > 0 && l[k].end + rest == hi && Outcome(l1, l2, l[k].end, rest, prot, 0)
    ensures Updated(l, l2, addr, hi, Some(prot)) && Joined(l, l2, addr, hi, prot)
  {
    Chain(l, l1, l2, addr, l[k].end, hi, prot);
    JoinedChain(l, l1, l2, r, k, i, addr, hi, prot);
  }

  lemma NoneSkipped(l: seq<Area>, r: Range, k: nat, addr: int, hi: int, prot: int, x: int)
    requires WellFormed(l, r) && k < |l| && l[k].start <= addr <= x < l[k].end < hi
    ensures !Skipped(l, addr, hi, prot, x)
  {
    forall n | 0 <= n < |l| && l[n].start == x ensures n == k {
      Ordered(l, r, n, k);
    }
  }

  lemma SkippedBehind(l: seq<Area>, l1: seq<Area>, r: Range, k: nat, i: nat, addr: int, hi: int, prot: int, x: int)
    requires WellFormed(l, r) && WellFormed(l1, r) && FirstPart(l, l1, k, i, addr, prot) && l[k].end <= x <= hi
    requires l[k].end < hi
    ensures Skipped(l1, l[k].end, hi, prot, x) <==> Skipped(l, addr, hi, prot, x)
  {
    SuffixOutlasts(l, r, k, x, hi, prot);
    SuffixOutlasts(l1, r, i, x, hi, prot);
    NextStart(l1, r, i);
    forall n | 0 <= n < |l| && l[n].start < addr ensures l[n].end != hi {
      Ordered(l, r, n, k);
    }
    forall n | 0 <= n < |l1| && l1[n].start < l[k].end ensures l1[n].end != hi {
      Ordered(l1, r, n, i);
    }
    BeginsMapped(l1, r, i);
  }

  lemma CutFirst(l: seq<Area>, l1: seq<Area>, r: Range, k: nat, addr: int, prot: int)
    requires WellFormed(l, r) && k < |l| < MAX_AREAS && OnPage(addr)
    requires l[k].start < addr < l[k].end && l[k].prot != prot
    requires l1 == Replace(l, k, k + 1, [l[k].(end := addr), Area(addr, l[k].end, prot)])
    ensures FirstPart(l, l1, k, k + 1, addr, prot)
  {
    CutOut(l, r, k, addr, l[k].end, prot, [l[k].(end := addr), Area(addr, l[k].end, prot)]);
    CutOutStarts(l, r, k, addr, l[k].end, prot, [l[k].(end := addr), Area(addr, l[k].end, prot)]);
    BeginsWithin(l, r, k, k + 1);
    AtIndex(l, k, addr - 1);
    assert l1[k + 2..] == l[k + 1..];
    FirstPartOf(l, l1, r, k, k + 1, addr, prot);
  }

  lemma FrontFirst(l: seq<Area>, l1: seq<Area>, r: Range, k: nat, prot: int)
    requires WellFormed(l, r) && k < |l|
    requires l1 == if PrevHas(l, k, prot) then RemoveAt(l, k)[k - 1 := l[k - 1].(end := l[k].end)]
                   else l[k := l[k].(prot := prot)]
    ensures FirstPart(l, l1, k, if PrevHas(l, k, prot) then k - 1 else k, l[k].start, prot)
  {
    var i := if PrevHas(l, k, prot) then k - 1 else k;
    FrontList(l, l1, k, i, prot);
    FrontFused(l, l1, r, k, i, prot);
  }

  lemma FrontList(l: seq<Area>, l1: seq<Area>, k: nat, i: nat, prot: int)
    requires k < |l| && i == if PrevHas(l, k, prot) then k - 1 else k
    requires l1 == if PrevHas(l, k, prot) then RemoveAt(l, k)[k - 1 := l[k - 1].(end := l[k].end)]
                   else l[k := l[k].(prot := prot)]
    ensures l1 == Replace(l, i, k + 1, [Area(l[i].start, l[k].end, prot)])
    ensures i < |l1| && l1[i] == Area(l[i].start, l[k].end, prot) && l1[i + 1..] == l[k + 1..]
  {
  }

  lemma FrontFused(l: seq<Area>, l1: seq<Area>, r: Range, k: nat, i: nat, prot: int)
    requires WellFormed(l, r) && k < |l| && i == if PrevHas(l, k, prot) then k - 1 else k
    requires l1 == Replace(l, i, k + 1, [Area(l[i].start, l[k].end, prot)])
    requires i < |l1| && l1[i] == Area(l[i].start, l[k].end, prot) && l1[i + 1..] == l[k + 1..]
    ensures FirstPart(l, l1, k, i, l[k].start, prot)
  {
    Fuse(l, r, i, k + 1, k, prot, l1[i]);
    FrontStarts(l, l1, r, k, i, prot);
    FirstPartOf(l, l1, r, k, i, l[k].start, prot);
  }

  lemma FrontStarts(l: seq<Area>, l1: seq<Area>, r: Range, k: nat, i: nat, prot: int)
    requires WellFormed(l, r) && k < |l| && i == if PrevHas(l, k, prot) then k - 1 else k
    requires Updated(l, l1, l[k].start, l[k].end, Some(prot))
    requires forall x :: Begins(l1, x) <==> if l[i].start <= x < l[k].end then x == l[i].start else Begins(l, x)
    ensures forall x :: x < l[k].start ==> (Begins(l1, x) <==> Begins(l, x))
    ensures forall x :: l[k].start < x < l[k].end ==> !Begins(l1, x)
    ensures Begins(l1, l[k].start) ==> At(l1, l[k].start - 1) != Some(prot)
  {
    BeginsWithin(l, r, i, k + 1);
    BeginsMapped(l, r, k);
    Ordered(l, r, i, k);
  }
}
