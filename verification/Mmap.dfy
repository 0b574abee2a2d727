/** vm_area_map of Assignment3/mmap.c: where a new mapping goes, which areas it joins,
    what it returns, and when the search never ends. */
module Mmap {
  import opened Options
  import opened AreaList
  import opened AddressSpace

  /** The flag word: whether the MAP_FIXED bit is set, and whether any other bit is.
      The source compares the whole word with MAP_FIXED in one place and tests the bit
      in another. */
  datatype Flags = Flags(fixed: bool, others: bool)

  /** What a call comes to: a returned value, or a loop that no longer changes anything. */
  datatype Outcome = Ret(value: int) | Hang

  /** [base, base + n) was free, is inside the range, and is now mapped; nothing else changed. */
  ghost predicate Placed(before: seq<Area>, after: seq<Area>, r: Range, base: int, n: int, prot: int) {
    && r.lo <= base && base + n <= r.hi
    && Free(before, base, n)
    && Updated(before, after, base, base + n, Some(prot))
  }

  ghost predicate EndsAt(l: seq<Area>, x: int, prot: int) {
    exists i :: 0 <= i < |l| && l[i].end == x && l[i].prot == prot
  }

  ghost predicate StartsAt(l: seq<Area>, x: int, prot: int) {
    exists i :: 0 <= i < |l| && l[i].start == x && l[i].prot == prot
  }

  /** base is the lowest address in the range at which n bytes are free. */
  ghost predicate FirstFit(l: seq<Area>, r: Range, base: int, n: int) {
    && r.lo <= base && base + n <= r.hi
    && Free(l, base, n)
    && NoFitBelow(l, r, base, n)
  }

  ghost predicate NoFitBelow(l: seq<Area>, r: Range, x: int, n: int) {
    forall b :: r.lo <= b < x ==> !Free(l, b, n)
  }

  ghost predicate Fits(l: seq<Area>, r: Range, n: int) {
    exists b :: r.lo <= b && b + n <= r.hi && Free(l, b, n)
  }

  /** An area with protection prot ends at base, or starts at base + n. */
  ghost predicate Touched(l: seq<Area>, base: int, n: int, prot: int) {
    EndsAt(l, base, prot) || StartsAt(l, base + n, prot)
  }

  /** One of each: the new mapping would join the two into one area. */
  ghost predicate Bridged(l: seq<Area>, base: int, n: int, prot: int) {
    EndsAt(l, base, prot) && StartsAt(l, base + n, prot)
  }

  /** The call joins what it touches: it makes no seam, and leaves those that were there. */
  ghost predicate SameSeams(before: seq<Area>, after: seq<Area>) {
    forall x :: Seam(after, x) <==> Seam(before, x)
  }

  /** It joins nothing: where the new area touches another with its protection is a seam. */
  ghost predicate NewSeams(before: seq<Area>, after: seq<Area>, base: int, n: int, prot: int) {
    forall x :: Seam(after, x)
      <==> Seam(before, x) || (x == base && EndsAt(before, base, prot)) || (x == base + n && StartsAt(before, x, prot))
  }

  ghost predicate Succeeds(out: Outcome) {
    out.Ret? && out.value != -1
  }

  /** What taking a free run comes to that may touch areas on both sides.  The returned value
      is base, except that it is the end of the new mapping when that joins two areas. */
  ghost predicate Filled(before: seq<Area>, after: seq<Area>, r: Range, base: int, n: int, prot: int, out: Outcome) {
    && out == Ret(if |before| == MAX_AREAS && !Touched(before, base, n, prot) then -1
                  else if Bridged(before, base, n, prot) then base + n
                  else base)
    && (if Succeeds(out) then Placed(before, after, r, base, n, prot) && SameSeams(before, after) else after == before)
  }

  /** A search without a hint.  base is the lowest address that fits, if any does. */
  ghost predicate Searched(before: seq<Area>, after: seq<Area>, r: Range, n: int, prot: int, out: Outcome, base: int) {
    if Fits(before, r, n) then FirstFit(before, r, base, n) && Filled(before, after, r, base, n, prot, out)
    else out == (if before == [] then Ret(-1) else Hang) && after == before
  }

  /** Some area lies below the stretch and some above it. */
  ghost predicate Between(l: seq<Area>, base: int, n: int) {
    && (exists i :: 0 <= i < |l| && l[i].end <= base)
    && (exists j :: 0 <= j < |l| && base + n <= l[j].start)
  }

  /** A hint that is free is taken.  Between two areas the mapping joins those it
      touches; in front of all areas, or behind them, it is always an area of its own. */
  ghost predicate HintTaken(before: seq<Area>, after: seq<Area>, r: Range, addr: int, n: int, prot: int, out: Outcome) {
    && out == Ret(if |before| == MAX_AREAS && !(Between(before, addr, n) && Touched(before, addr, n, prot)) then -1
                  else addr)
    && (if Succeeds(out) then
          && Placed(before, after, r, addr, n, prot)
          && if Between(before, addr, n) then SameSeams(before, after) else NewSeams(before, after, addr, n, prot)
        else after == before)
  }

  /** The end of the first area that ends above addr. */
  function NextHint(l: seq<Area>, addr: int): int {
    if l == [] then addr else if l[0].end > addr then l[0].end else NextHint(l[1..], addr)
  }

  /** A call with a hint. */
  ghost predicate Hinted(before: seq<Area>, after: seq<Area>, r: Range, addr: int, n: int, prot: int, flags: Flags,
                         out: Outcome, base: int)
    decreases r.hi - addr
  {
    if addr < r.lo || addr > r.hi then out == Ret(-1) && after == before
    else if addr + n > r.hi then
      if flags == Flags(true, false) then out == Ret(-1) && after == before
      else Searched(before, after, r, n, prot, out, base)
    else if Free(before, addr, n) then base == addr && HintTaken(before, after, r, addr, n, prot, out)
    else if flags.fixed then out == Ret(-1) && after == before
    else
      var h := NextHint(before, addr);
      if h > addr && h + addr <= r.hi then Hinted(before, after, r, h, n, prot, flags, out, base)
      else Searched(before, after, r, n, prot, out, base)
  }

  // ----- gaps

  lemma FreeGap(l: seq<Area>, r: Range, k: nat, lo: int, hi: int)
    requires WellFormed(l, r) && k <= |l|
    requires k > 0 ==> l[k - 1].end <= lo
    requires k < |l| ==> hi <= l[k].start
    ensures Free(l, lo, hi - lo)
  {
    forall x | lo <= x < hi ensures At(l, x) == None {
      forall i | 0 <= i < |l| ensures !Contains(l[i], x) {
        if i < k {
          Ordered(l, r, i, k - 1);
        } else {
          Ordered(l, r, k, i);
        }
      }
      AtNowhere(l, x);
    }
  }

  /** A stretch that meets an area is not free. */
  lemma NotFree(l: seq<Area>, r: Range, k: nat, b: int, n: int)
    requires WellFormed(l, r) && k < |l| && n > 0
    requires b < l[k].end && l[k].start < b + n
    ensures !Free(l, b, n)
  {
    Ordered(l, r, k, k);
    var x := if b < l[k].start then l[k].start else b;
    AtIndex(l, k, x);
  }

  /** No gap below area k fits, and the one in front of it does not either. */
  lemma SearchOn(l: seq<Area>, r: Range, k: nat, from: int, n: int)
    requires WellFormed(l, r) && k < |l| && n > 0
    requires NoFitBelow(l, r, from, n) && from + n > l[k].start
    ensures NoFitBelow(l, r, l[k].end, n)
  {
    forall b | r.lo <= b < l[k].end ensures !Free(l, b, n) {
      if b >= from {
        NotFree(l, r, k, b, n);
      }
    }
  }

  // ----- the edits, on values

  lemma Insert(l: seq<Area>, l': seq<Area>, r: Range, k: nat, base: int, n: int, prot: int)
    requires WellFormed(l, r) && |l| < MAX_AREAS && k <= |l| && n > 0
    requires k > 0 ==> l[k - 1].end <= base
    requires k < |l| ==> base + n <= l[k].start
    requires r.lo <= base && base + n <= r.hi && OnPage(base) && OnPage(n)
    requires l' == InsertAt(l, k, Area(base, base + n, prot))
    ensures WellFormed(l', r) && Placed(l, l', r, base, n, prot) && NewSeams(l, l', base, n, prot)
  {
    var a := Area(base, base + n, prot);
    PageSum(base, n);
    assert l' == Replace(l, k, k, [a]);
    Splice(l, r, k, k, base, base + n, [a]);
    assert [a][0] == a;
    AtShort(a, a, a, base);
    FreeGap(l, r, k, base, base + n);
    forall x ensures At(l', x) == if base <= x < base + n then Some(prot) else At(l, x) {
      AtShort(a, a, a, x);
    }
    InsertSeams(l, l', r, base, n, prot);
  }

  /** What ends or starts at the ends of a free run, by the view. */
  lemma TouchedView(l: seq<Area>, r: Range, base: int, n: int, prot: int)
    requires WellFormed(l, r) && n > 0 && Free(l, base, n)
    ensures EndsAt(l, base, prot) <==> At(l, base - 1) == Some(prot)
    ensures StartsAt(l, base + n, prot) <==> At(l, base + n) == Some(prot)
    ensures forall x :: base <= x < base + n ==> !Begins(l, x)
    ensures At(l, base + n).Some? <==> Begins(l, base + n)
  {
    forall i | 0 <= i < |l|
      ensures !(base <= l[i].start < base + n)
      ensures At(l, l[i].end - 1) == Some(l[i].prot) == At(l, l[i].start)
    {
      BeginsMapped(l, r, i);
    }
    if At(l, base - 1).Some? {
      var i := AtWitness(l, base - 1);
      AtIndex(l, i, base - 1);
      if base < l[i].end {
        AtIndex(l, i, base);
      }
    }
    if At(l, base + n).Some? {
      var i := AtWitness(l, base + n);
      AtIndex(l, i, base + n);
      if l[i].start < base + n {
        AtIndex(l, i, base + n - 1);
      }
    }
  }

  lemma InsertSeams(l: seq<Area>, l': seq<Area>, r: Range, base: int, n: int, prot: int)
    requires WellFormed(l, r) && n > 0 && Placed(l, l', r, base, n, prot)
    requires forall x :: Begins(l', x) <==> if base <= x < base + n then x == base else Begins(l, x)
    ensures NewSeams(l, l', base, n, prot)
  {
    TouchedView(l, r, base, n, prot);
    forall x
      ensures Seam(l', x)
         <==> Seam(l, x) || (x == base && EndsAt(l, base, prot)) || (x == base + n && StartsAt(l, x, prot))
    {
      assert At(l', x) == if base <= x < base + n then Some(prot) else At(l, x);
      assert At(l', x - 1) == if base <= x - 1 < base + n then Some(prot) else At(l, x - 1);
    }
  }

  /** No start is left where an area with the protection is joined. */
  lemma JoinSeams(l: seq<Area>, l': seq<Area>, r: Range, base: int, n: int, prot: int)
    requires WellFormed(l, r) && n > 0 && Placed(l, l', r, base, n, prot)
    requires forall x :: x != base && x != base + n ==> (Begins(l', x) <==> Begins(l, x))
    requires EndsAt(l, base, prot) ==> !Begins(l', base)
    requires Begins(l', base + n) ==> Begins(l, base + n) && !StartsAt(l, base + n, prot)
    ensures SameSeams(l, l')
  {
    TouchedView(l, r, base, n, prot);
    forall x ensures Seam(l', x) <==> Seam(l, x) {
      assert At(l', x) == if base <= x < base + n then Some(prot) else At(l, x);
      assert At(l', x - 1) == if base <= x - 1 < base + n then Some(prot) else At(l, x - 1);
    }
  }

  /** Area k grows upwards over n free bytes. */
  lemma GrowUp(l: seq<Area>, l': seq<Area>, r: Range, k: nat, n: int)
    requires WellFormed(l, r) && k < |l| && n > 0 && OnPage(n)
    requires l[k].end + n <= r.hi && (k + 1 < |l| ==> l[k].end + n <= l[k + 1].start)
    requires l' == l[k := l[k].(end := l[k].end + n)]
    ensures WellFormed(l', r) && Placed(l, l', r, l[k].end, n, l[k].prot)
    ensures !StartsAt(l, l[k].end + n, l[k].prot) ==> SameSeams(l, l')
  {
    var a := l[k];
    Ordered(l, r, k, k);
    PageSum(a.end, n);
    if k > 0 {
      Ordered(l, r, k - 1, k);
    }
    FreeGap(l, r, k + 1, a.end, a.end + n);
    Resize(l, l', r, k, l'[k]);
    TouchedView(l, r, a.end, n, a.prot);
    if !StartsAt(l, a.end + n, a.prot) {
      JoinSeams(l, l', r, a.end, n, a.prot);
    }
  }

  /** Area k grows downwards over n free bytes. */
  lemma GrowDown(l: seq<Area>, l': seq<Area>, r: Range, k: nat, n: int)
    requires WellFormed(l, r) && k < |l| && n > 0 && OnPage(n)
    requires r.lo <= l[k].start - n && (k > 0 ==> l[k - 1].end <= l[k].start - n)
    requires l' == l[k := l[k].(start := l[k].start - n)]
    ensures WellFormed(l', r) && Placed(l, l', r, l[k].start - n, n, l[k].prot)
    ensures !EndsAt(l, l[k].start - n, l[k].prot) ==> SameSeams(l, l')
  {
    var a := l[k];
    Ordered(l, r, k, k);
    PageSum(a.start, n);
    if k + 1 < |l| {
      Ordered(l, r, k, k + 1);
    }
    FreeGap(l, r, k, a.start - n, a.start);
    Resize(l, l', r, k, l'[k]);
    TouchedView(l, r, a.start - n, n, a.prot);
    if !EndsAt(l, a.start - n, a.prot) {
      JoinSeams(l, l', r, a.start - n, n, a.prot);
    }
  }

  /** The hole between areas k and k + 1 is filled, and they become one. */
  lemma Bridge(l: seq<Area>, l': seq<Area>, r: Range, k: nat)
    requires WellFormed(l, r) && k + 1 < |l| && l[k].prot == l[k + 1].prot && l[k].end < l[k + 1].start
    requires l' == RemoveAt(l, k + 1)[k := l[k].(end := l[k + 1].end)]
    ensures WellFormed(l', r)
    ensures Placed(l, l', r, l[k].end, l[k + 1].start - l[k].end, l[k].prot)
    ensures SameSeams(l, l')
  {
    var a, c := l[k], l[k + 1];
    var b := a.(end := c.end);
    Ordered(l, r, k, k + 1);
    if k > 0 {
      Ordered(l, r, k - 1, k);
    }
    if k + 2 < |l| {
      Ordered(l, r, k + 1, k + 2);
    }
    assert l' == Replace(l, k, k + 2, [b]);
    assert l[k..k + 2] == [a, c];
    Splice(l, r, k, k + 2, a.start, c.end, [b]);
    FreeGap(l, r, k + 1, a.end, c.start);
    forall x ensures At(l', x) == if a.end <= x < c.start then Some(a.prot) else At(l, x) {
      AtShort(a, c, c, x);
      AtShort(b, c, c, x);
      AtShort(c, c, c, x);
    }
    BridgeSeams(l, l', r, k, b);
  }

  lemma BridgeSeams(l: seq<Area>, l': seq<Area>, r: Range, k: nat, b: Area)
    requires WellFormed(l, r) && k + 1 < |l| && l[k].prot == l[k + 1].prot && l[k].end < l[k + 1].start
    requires b == l[k].(end := l[k + 1].end)
    requires Placed(l, l', r, l[k].end, l[k + 1].start - l[k].end, l[k].prot)
    requires forall x :: Begins(l', x) <==> if b.start <= x < b.end then Begins([b], x) else Begins(l, x)
    ensures SameSeams(l, l')
  {
    var a, c := l[k], l[k + 1];
    assert [b][0] == b;
    Ordered(l, r, k, k + 1);
    TouchedView(l, r, a.end, c.start - a.end, a.prot);
    forall i | 0 <= i < |l| && b.start <= l[i].start < b.end ensures i == k || i == k + 1 {
      Ordered(l, r, i, k);
      Ordered(l, r, i, k + 1);
    }
    JoinSeams(l, l', r, a.end, c.start - a.end, a.prot);
  }

  /** Which areas touch a gap in front of area k. */
  lemma Neighbours(l: seq<Area>, r: Range, k: nat, base: int, n: int, prot: int)
    requires WellFormed(l, r) && k <= |l| && n > 0
    requires k > 0 ==> l[k - 1].end <= base
    requires k < |l| ==> base + n <= l[k].start
    ensures EndsAt(l, base, prot) <==> k > 0 && l[k - 1].end == base && l[k - 1].prot == prot
    ensures StartsAt(l, base + n, prot) <==> k < |l| && l[k].start == base + n && l[k].prot == prot
  {
    forall i | 0 <= i < |l|
      ensures l[i].end == base ==> i == k - 1
      ensures l[i].start == base + n ==> i == k
    {
      Ordered(l, r, i, i);
      if k > 0 {
        Ordered(l, r, i, k - 1);
      }
      if k < |l| {
        Ordered(l, r, i, k);
      }
    }
  }

  lemma Found(l: seq<Area>, r: Range, k: nat, base: int, n: int, prot: int)
    requires WellFormed(l, r) && k <= |l| && n > 0
    requires k > 0 ==> l[k - 1].end <= base
    requires k < |l| ==> base + n <= l[k].start
    requires r.lo <= base && base + n <= r.hi && NoFitBelow(l, r, base, n)
    ensures Fits(l, r, n) && FirstFit(l, r, base, n)
    ensures EndsAt(l, base, prot) <==> k > 0 && l[k - 1].end == base && l[k - 1].prot == prot
    ensures StartsAt(l, base + n, prot) <==> k < |l| && l[k].start == base + n && l[k].prot == prot
  {
    FreeGap(l, r, k, base, base + n);
    Neighbours(l, r, k, base, n, prot);
  }

  /** Only one address is the first fit. */
  lemma FirstFitUnique(l: seq<Area>, r: Range, b: int, c: int, n: int)
    requires FirstFit(l, r, b, n) && FirstFit(l, r, c, n)
    ensures b == c
  {
    assert b < c ==> !Free(l, b, n);
    assert c < b ==> !Free(l, c, n);
  }

  lemma NothingFits(l: seq<Area>, r: Range, x: int, n: int)
    requires NoFitBelow(l, r, x, n) && x + n > r.hi
    ensures !Fits(l, r, n)
  {
    forall b | r.lo <= b && b + n <= r.hi ensures !Free(l, b, n) {
    }
  }

  /** Whatever the hint, a call that succeeds maps exactly one free run with the
      requested protection: at the hint, at the first fit, or at the end of an area
      above the hint.  It returns the start of the run, or its end if the run is at the
      first fit and joins two areas.  A call that does not succeed changes nothing, and
      one that hangs has no hole to find. */
  lemma {:induction false} HintedMeaning(before: seq<Area>, after: seq<Area>, r: Range, addr: int, n: int, prot: int,
                                         flags: Flags, out: Outcome, base: int)
    requires Hinted(before, after, r, addr, n, prot, flags, out, base)
    ensures if Succeeds(out) then Placed(before, after, r, base, n, prot) else after == before
    ensures Succeeds(out)
        ==> out.value == base
            || (out.value == base + n && FirstFit(before, r, base, n) && Bridged(before, base, n, prot))
    ensures Succeeds(out) ==> base == addr || FirstFit(before, r, base, n) || (base > addr && IsEnd(before, base))
    ensures Succeeds(out) && flags == Flags(true, false) ==> base == addr == out.value
    ensures Succeeds(out) ==> SameSeams(before, after)
                              || (!Between(before, base, n) && NewSeams(before, after, base, n, prot))
    ensures out.Hang? ==> before != [] && !Fits(before, r, n)
    decreases r.hi - addr
  {
    var h := NextHint(before, addr);
    if r.lo <= addr && addr + n <= r.hi && !Free(before, addr, n) && !flags.fixed && h > addr && h + addr <= r.hi {
      NextHintIsEnd(before, addr);
      HintedMeaning(before, after, r, h, n, prot, flags, out, base);
    }
  }

  ghost predicate IsEnd(l: seq<Area>, x: int) {
    exists i :: 0 <= i < |l| && l[i].end == x
  }

  lemma {:induction false} NextHintIsEnd(l: seq<Area>, addr: int)
    requires NextHint(l, addr) != addr
    ensures IsEnd(l, NextHint(l, addr))
  {
    if l[0].end > addr {
      assert l[0].end == NextHint(l, addr);
    } else {
      NextHintIsEnd(l[1..], addr);
      var i :| 0 <= i < |l[1..]| && l[1..][i].end == NextHint(l, addr);
      assert l[i + 1].end == NextHint(l, addr);
    }
  }

  lemma {:induction false} NextHintAt(l: seq<Area>, addr: int, k: nat)
    requires k < |l| && addr < l[k].end
    requires forall i :: 0 <= i < k ==> l[i].end <= addr
    ensures NextHint(l, addr) == l[k].end
  {
    if k > 0 {
      NextHintAt(l[1..], addr, k - 1);
    }
  }

  /** A hint that lies in a gap in front of area k. */
  lemma HintInGap(l: seq<Area>, r: Range, k: nat, addr: int, n: int, prot: int)
    requires WellFormed(l, r) && k <= |l| && n > 0
    requires k > 0 ==> l[k - 1].end <= addr
    requires k < |l| ==> addr + n <= l[k].start
    ensures Free(l, addr, n)
    ensures Between(l, addr, n) <==> 0 < k < |l|
    ensures EndsAt(l, addr, prot) <==> k > 0 && l[k - 1].end == addr && l[k - 1].prot == prot
    ensures StartsAt(l, addr + n, prot) <==> k < |l| && l[k].start == addr + n && l[k].prot == prot
  {
    FreeGap(l, r, k, addr, addr + n);
    Neighbours(l, r, k, addr, n, prot);
    forall i | 0 <= i < |l|
      ensures k == 0 ==> l[i].end > addr
      ensures k == |l| ==> l[i].start < addr + n
    {
      Ordered(l, r, i, i);
      if k == 0 {
        Ordered(l, r, 0, i);
      } else if k == |l| {
        Ordered(l, r, i, k - 1);
      }
    }
  }

  // ----- the code

  /** vm_area_map without a hint: the first hole that is large enough. */
  method MapAnywhere(sp: Space, n: int, prot: int) returns (out: Outcome, ghost base: int)
    requires sp.Valid() && OnPage(n) && n > 0 && OnPage(sp.range.lo) && sp.range.lo >= 0
    modifies sp, sp.nodes
    ensures sp.Valid() && forall m :: m in sp.nodes ==> m in old(sp.nodes) || fresh(m)
    ensures Searched(old(sp.areas), sp.areas, sp.range, n, prot, out, base)
  {
    var count := sp.CountAreas();
    var head := sp.head;
    base := sp.range.lo;
    assert head != null ==> sp.Holds(0);
    if head == null || (head.start > sp.range.lo && sp.range.lo + n <= head.start) {
      out := MapAtStart(sp, count, n, prot);
      return;
    }
    var cur, k := FindHole(sp, n);
    assert sp.Holds(k);
    base := cur.end;
    if cur.next == null {
      out := MapAtEnd(sp, k, cur, count, n, prot);
    } else {
      assert sp.Holds(k + 1);
      out := MapBetween(sp, k, cur, cur.next, count, n, prot);
    }
  }

  /** The first area with enough room behind it, or the last area. */
  method FindHole(sp: Space, n: int) returns (cur: VmArea, ghost k: nat)
    requires sp.Valid() && sp.nodes != [] && n > 0
    requires sp.areas[0].start <= sp.range.lo || sp.range.lo + n > sp.areas[0].start
    ensures k < |sp.nodes| && cur == sp.nodes[k]
    ensures NoFitBelow(sp.areas, sp.range, sp.areas[k].end, n)
    ensures k + 1 < |sp.nodes| ==> sp.areas[k].end + n <= sp.areas[k + 1].start
  {
    cur, k := sp.head, 0;
    SearchOn(sp.areas, sp.range, 0, sp.range.lo, n);
    assert sp.Holds(0);
    while cur.next != null && cur.end + n > cur.next.start
      invariant k < |sp.nodes| && cur == sp.nodes[k]
      invariant NoFitBelow(sp.areas, sp.range, sp.areas[k].end, n)
      decreases |sp.nodes| - k
    {
      assert sp.Holds(k) && sp.Holds(k + 1);
      SearchOn(sp.areas, sp.range, k + 1, sp.areas[k].end, n);
      cur := cur.next;
      k := k + 1;
    }
    assert sp.Holds(k) && (k + 1 < |sp.nodes| ==> sp.Holds(k + 1));
  }

  /** In an empty list, or in front of the first area. */
  method MapAtStart(sp: Space, count: nat, n: int, prot: int) returns (out: Outcome)
    requires sp.Valid() && OnPage(n) && n > 0 && OnPage(sp.range.lo) && sp.range.lo >= 0
    requires count == |sp.areas|
    requires sp.areas != [] ==> sp.range.lo + n <= sp.areas[0].start
    modifies sp, sp.nodes
    ensures sp.Valid() && forall m :: m in sp.nodes ==> m in old(sp.nodes) || fresh(m)
    ensures Searched(old(sp.areas), sp.areas, sp.range, n, prot, out, sp.range.lo)
  {
    var lo := sp.range.lo;
    ghost var l := sp.areas;
    var head := sp.head;
    out := Ret(-1);
    if head == null {
      if lo + n > sp.range.hi {
        NothingFits(l, sp.range, lo, n);
        return;
      }
    } else {
      assert sp.Holds(0);
      Ordered(l, sp.range, 0, 0);
    }
    Found(l, sp.range, 0, lo, n, prot);
    if head != null && prot == head.prot && lo + n == head.start {
      sp.SetStart(0, head, lo);
      GrowDown(l, sp.areas, sp.range, 0, n);
      out := Ret(lo);
    } else if count < MAX_AREAS {
      sp.PushFront(lo, lo + n, prot);
      Insert(l, sp.areas, sp.range, 0, lo, n, prot);
      assert forall m :: m in sp.nodes ==> m == sp.nodes[0] || m in sp.nodes[1..];
      out := Ret(lo);
    }
  }

  /** Behind the last area. */
  method MapAtEnd(sp: Space, ghost k: nat, cur: VmArea, count: nat, n: int, prot: int) returns (out: Outcome)
    requires sp.Valid() && OnPage(n) && n > 0 && sp.range.lo >= 0 && count == |sp.areas|
    requires k + 1 == |sp.nodes| && cur == sp.nodes[k]
    requires NoFitBelow(sp.areas, sp.range, sp.areas[k].end, n)
    modifies sp, sp.nodes
    ensures sp.Valid() && forall m :: m in sp.nodes ==> m in old(sp.nodes) || fresh(m)
    ensures Searched(old(sp.areas), sp.areas, sp.range, n, prot, out, old(sp.areas)[k].end)
  {
    ghost var l := sp.areas;
    assert sp.Holds(k);
    Ordered(l, sp.range, k, k);
    var end := cur.end;
    if end + n <= sp.range.hi {
      Found(l, sp.range, k + 1, end, n, prot);
      if prot == cur.prot {
        sp.SetEnd(k, cur, end + n);
        GrowUp(l, sp.areas, sp.range, k, n);
      } else {
        if count >= MAX_AREAS {
          return Ret(-1);
        }
        var m := sp.InsertAfter(k, cur, end, end + n, prot);
        Insert(l, sp.areas, sp.range, k + 1, end, n, prot);
      }
      out := Ret(end);
    } else {
      // The source repeats this iteration for ever
      NothingFits(l, sp.range, end, n);
      out := Hang;
    }
  }

  /** Between two areas. */
  method MapBetween(sp: Space, ghost k: nat, cur: VmArea, next: VmArea, count: nat, n: int, prot: int)
      returns (out: Outcome)
    requires sp.Valid() && OnPage(n) && n > 0 && sp.range.lo >= 0 && count == |sp.areas|
    requires k + 1 < |sp.nodes| && cur == sp.nodes[k] && next == sp.nodes[k + 1]
    requires sp.areas[k].end + n <= sp.areas[k + 1].start
    requires NoFitBelow(sp.areas, sp.range, sp.areas[k].end, n)
    modifies sp, sp.nodes
    ensures sp.Valid() && forall m :: m in sp.nodes ==> m in old(sp.nodes) || fresh(m)
    ensures Searched(old(sp.areas), sp.areas, sp.range, n, prot, out, old(sp.areas)[k].end)
  {
    Ordered(sp.areas, sp.range, k, k + 1);
    Found(sp.areas, sp.range, k + 1, sp.areas[k].end, n, prot);
    out := FillHole(sp, k, cur, next, count, n, prot);
  }

  /** The four cases: both areas are joined, or one, or neither. */
  method FillHole(sp: Space, ghost k: nat, cur: VmArea, next: VmArea, count: nat, n: int, prot: int)
      returns (out: Outcome)
    requires sp.Valid() && OnPage(n) && n > 0 && sp.range.lo >= 0 && count == |sp.areas|
    requires k + 1 < |sp.nodes| && cur == sp.nodes[k] && next == sp.nodes[k + 1]
    requires sp.areas[k].end + n <= sp.areas[k + 1].start
    modifies sp, sp.nodes
    ensures sp.Valid() && forall m :: m in sp.nodes ==> m in old(sp.nodes) || fresh(m)
    ensures Filled(old(sp.areas), sp.areas, sp.range, old(sp.areas)[k].end, n, prot, out)
  {
    ghost var l := sp.areas;
    assert sp.Holds(k) && sp.Holds(k + 1);
    Ordered(l, sp.range, k, k + 1);
    Neighbours(l, sp.range, k + 1, l[k].end, n, prot);
    var end := cur.end;
    out := Ret(end);
    if end + n == next.start && cur.prot == prot && next.prot == prot {
      out := Ret(end + n);
      JoinBoth(sp, k, cur, next);
    } else if cur.prot == prot {
      Extend(sp, k, cur, n);
    } else if end + n == next.start && next.prot == prot {
      Lower(sp, k + 1, next, n);
    } else {
      out := NewInHole(sp, k, cur, count, n, prot);
    }
  }

  /** The hole gets an area of its own. */
  method NewInHole(sp: Space, ghost k: nat, cur: VmArea, count: nat, n: int, prot: int) returns (out: Outcome)
    requires sp.Valid() && OnPage(n) && n > 0 && count == |sp.areas| && sp.range.lo >= 0
    requires k + 1 < |sp.nodes| && cur == sp.nodes[k] && sp.areas[k].end + n <= sp.areas[k + 1].start
    requires !Touched(sp.areas, sp.areas[k].end, n, prot)
    modifies sp, sp.nodes
    ensures sp.Valid() && forall m :: m in sp.nodes ==> m in old(sp.nodes) || fresh(m)
    ensures Filled(old(sp.areas), sp.areas, sp.range, old(sp.areas)[k].end, n, prot, out)
  {
    assert sp.Holds(k);
    Ordered(sp.areas, sp.range, k, k + 1);
    var end := cur.end;
    if count >= MAX_AREAS {
      return Ret(-1);
    }
    AddAfter(sp, k, cur, end, n, prot);
    out := Ret(end);
  }

  /** An area grows upwards into the free space behind it. */
  method Extend(sp: Space, ghost k: nat, cur: VmArea, n: int)
    requires sp.Valid() && k < |sp.nodes| && cur == sp.nodes[k] && OnPage(n) && n > 0
    requires sp.areas[k].end + n <= sp.range.hi && (k + 1 < |sp.areas| ==> sp.areas[k].end + n <= sp.areas[k + 1].start)
    modifies sp, sp.nodes
    ensures sp.Valid() && sp.nodes == old(sp.nodes)
    ensures sp.areas == old(sp.areas)[k := old(sp.areas)[k].(end := old(sp.areas)[k].end + n)]
    ensures Placed(old(sp.areas), sp.areas, sp.range, old(sp.areas)[k].end, n, old(sp.areas)[k].prot)
    ensures !StartsAt(old(sp.areas), old(sp.areas)[k].end + n, old(sp.areas)[k].prot) ==>
              SameSeams(old(sp.areas), sp.areas)
  {
    ghost var l := sp.areas;
    assert sp.Holds(k);
    sp.SetEnd(k, cur, cur.end + n);
    GrowUp(l, sp.areas, sp.range, k, n);
  }

  /** An area grows downwards into the free space in front of it. */
  method Lower(sp: Space, ghost k: nat, cur: VmArea, n: int)
    requires sp.Valid() && k < |sp.nodes| && cur == sp.nodes[k] && OnPage(n) && n > 0
    requires sp.range.lo <= sp.areas[k].start - n && (k > 0 ==> sp.areas[k - 1].end <= sp.areas[k].start - n)
    modifies sp, sp.nodes
    ensures sp.Valid() && sp.nodes == old(sp.nodes)
    ensures sp.areas == old(sp.areas)[k := old(sp.areas)[k].(start := old(sp.areas)[k].start - n)]
    ensures Placed(old(sp.areas), sp.areas, sp.range, old(sp.areas)[k].start - n, n, old(sp.areas)[k].prot)
    ensures !EndsAt(old(sp.areas), old(sp.areas)[k].start - n, old(sp.areas)[k].prot) ==>
              SameSeams(old(sp.areas), sp.areas)
  {
    ghost var l := sp.areas;
    assert sp.Holds(k);
    sp.SetStart(k, cur, cur.start - n);
    GrowDown(l, sp.areas, sp.range, k, n);
  }

  /** A new area behind area k. */
  method AddAfter(sp: Space, ghost k: nat, prev: VmArea, base: int, n: int, prot: int)
    requires sp.Valid() && k < |sp.nodes| && prev == sp.nodes[k] && |sp.areas| < MAX_AREAS
    requires OnPage(base) && OnPage(n) && n > 0 && sp.areas[k].end <= base
    requires base + n <= sp.range.hi && (k + 1 < |sp.areas| ==> base + n <= sp.areas[k + 1].start)
    modifies sp, sp.nodes
    ensures sp.Valid() && forall m :: m in sp.nodes ==> m in old(sp.nodes) || fresh(m)
    ensures sp.areas == InsertAt(old(sp.areas), k + 1, Area(base, base + n, prot))
    ensures Placed(old(sp.areas), sp.areas, sp.range, base, n, prot) && NewSeams(old(sp.areas), sp.areas, base, n, prot)
  {
    ghost var l := sp.areas;
    Ordered(l, sp.range, k, k);
    var m := sp.InsertAfter(k, prev, base, base + n, prot);
    Insert(l, sp.areas, sp.range, k + 1, base, n, prot);
  }

  /** cur takes over the hole behind it and the area behind that. */
  method JoinBoth(sp: Space, ghost k: nat, cur: VmArea, next: VmArea)
    requires sp.Valid() && k + 1 < |sp.nodes| && cur == sp.nodes[k] && next == sp.nodes[k + 1]
    requires sp.areas[k].prot == sp.areas[k + 1].prot && sp.areas[k].end < sp.areas[k + 1].start
    modifies sp, sp.nodes
    ensures sp.Valid() && forall m :: m in sp.nodes ==> m in old(sp.nodes)
    ensures Placed(old(sp.areas), sp.areas, sp.range, old(sp.areas)[k].end,
                   old(sp.areas)[k + 1].start - old(sp.areas)[k].end, old(sp.areas)[k].prot)
    ensures SameSeams(old(sp.areas), sp.areas)
    ensures sp.areas == RemoveAt(old(sp.areas), k + 1)[k := old(sp.areas)[k].(end := old(sp.areas)[k + 1].end)]
  {
    ghost var l := sp.areas;
    assert sp.Holds(k + 1);
    sp.SetEnd(k, cur, next.end);
    sp.UnlinkAfter(k, cur);
    assert sp.areas == RemoveAt(l, k + 1)[k := l[k].(end := l[k + 1].end)];
    Bridge(l, sp.areas, sp.range, k);
  }

  /** vm_area_map */
  method VmAreaMap(sp: Space, addr: int, length: int, prot: int, flags: Flags) returns (out: Outcome, ghost base: int)
    requires sp.Valid() && OnPage(addr) && length > 0 && OnPage(sp.range.lo) && sp.range.lo >= 0
    modifies sp, sp.nodes
    ensures sp.Valid() && forall m :: m in sp.nodes ==> m in old(sp.nodes) || fresh(m)
    ensures addr == 0 ==> Searched(old(sp.areas), sp.areas, sp.range, RoundUp(length), prot, out, base)
    ensures addr != 0 ==> Hinted(old(sp.areas), sp.areas, sp.range, addr, RoundUp(length), prot, flags, out, base)
  {
    if addr == 0 {
      out, base := MapAnywhere(sp, RoundUp(length), prot);
    } else {
      out, base := MapHinted(sp, addr, RoundUp(length), prot, flags);
    }
  }

  /** vm_area_map with a hint. */
  method MapHinted(sp: Space, addr: int, n: int, prot: int, flags: Flags) returns (out: Outcome, ghost base: int)
    requires sp.Valid() && OnPage(addr) && OnPage(n) && n > 0 && OnPage(sp.range.lo) && sp.range.lo >= 0
    modifies sp, sp.nodes
    ensures sp.Valid() && forall m :: m in sp.nodes ==> m in old(sp.nodes) || fresh(m)
    ensures Hinted(old(sp.areas), sp.areas, sp.range, addr, n, prot, flags, out, base)
    decreases sp.range.hi - addr
  {
    out, base := Ret(-1), addr;
    if addr < sp.range.lo || addr > sp.range.hi {
      return;
    }
    if addr + n > sp.range.hi {
      if flags != Flags(true, false) {
        out, base := MapAnywhere(sp, n, prot);
      }
      return;
    }
    var count := sp.CountAreas();
    var head := sp.head;
    assert head != null ==> sp.Holds(0);
    if head == null || addr + n <= head.start {
      out := HintFront(sp, addr, n, prot, count);
      return;
    }
    var prev, cur, k := sp.Seek(addr);
    assert k < |sp.nodes| ==> sp.Holds(k);
    if cur == null {
      out := HintBack(sp, k, prev, addr, n, prot, count);
    } else if cur.start <= addr < cur.end || (addr < cur.start && addr + n > cur.start) {
      NotFree(sp.areas, sp.range, k, addr, n);
      NextHintAt(sp.areas, addr, k);
      Ordered(sp.areas, sp.range, k, k);
      if !flags.fixed {
        if cur.end + addr <= sp.range.hi {
          out, base := MapHinted(sp, cur.end, n, prot, flags);
        } else {
          out, base := MapAnywhere(sp, n, prot);
        }
      }
    } else {
      out := HintBetween(sp, k, prev, cur, addr, n, prot, count);
    }
  }

  /** In front of all areas. */
  method HintFront(sp: Space, addr: int, n: int, prot: int, count: nat) returns (out: Outcome)
    requires sp.Valid() && OnPage(addr) && OnPage(n) && n > 0 && count == |sp.areas|
    requires 0 <= sp.range.lo <= addr && addr + n <= sp.range.hi
    requires sp.areas != [] ==> addr + n <= sp.areas[0].start
    modifies sp, sp.nodes
    ensures sp.Valid() && forall m :: m in sp.nodes ==> m in old(sp.nodes) || fresh(m)
    ensures Free(old(sp.areas), addr, n) && HintTaken(old(sp.areas), sp.areas, sp.range, addr, n, prot, out)
  {
    ghost var l := sp.areas;
    HintInGap(l, sp.range, 0, addr, n, prot);
    if count >= MAX_AREAS {
      return Ret(-1);
    }
    sp.PushFront(addr, addr + n, prot);
    Insert(l, sp.areas, sp.range, 0, addr, n, prot);
    assert forall m :: m in sp.nodes ==> m == sp.nodes[0] || m in sp.nodes[1..];
    out := Ret(addr);
  }

  /** Behind all areas. */
  method HintBack(sp: Space, ghost k: nat, prev: VmArea?, addr: int, n: int, prot: int, count: nat)
      returns (out: Outcome)
    requires sp.Valid() && OnPage(addr) && OnPage(n) && n > 0 && count == |sp.areas|
    requires 0 <= sp.range.lo <= addr && addr + n <= sp.range.hi
    requires k == |sp.nodes| > 0 && prev == sp.nodes[k - 1] && sp.areas[k - 1].end <= addr
    modifies sp, sp.nodes
    ensures sp.Valid() && forall m :: m in sp.nodes ==> m in old(sp.nodes) || fresh(m)
    ensures Free(old(sp.areas), addr, n) && HintTaken(old(sp.areas), sp.areas, sp.range, addr, n, prot, out)
  {
    ghost var l := sp.areas;
    HintInGap(l, sp.range, k, addr, n, prot);
    if count >= MAX_AREAS {
      return Ret(-1);
    }
    var m := sp.InsertAfter(k - 1, prev, addr, addr + n, prot);
    Insert(l, sp.areas, sp.range, k, addr, n, prot);
    out := Ret(addr);
  }

  /** Between two areas. */
  method HintBetween(sp: Space, ghost k: nat, prev: VmArea?, cur: VmArea, addr: int, n: int, prot: int, count: nat)
      returns (out: Outcome)
    requires sp.Valid() && OnPage(addr) && OnPage(n) && n > 0 && count == |sp.areas|
    requires 0 <= sp.range.lo <= addr && addr + n <= sp.range.hi
    requires 0 < k < |sp.nodes| && prev == sp.nodes[k - 1] && cur == sp.nodes[k]
    requires sp.areas[k - 1].end <= addr && addr + n <= sp.areas[k].start
    modifies sp, sp.nodes
    ensures sp.Valid() && forall m :: m in sp.nodes ==> m in old(sp.nodes) || fresh(m)
    ensures Free(old(sp.areas), addr, n) && HintTaken(old(sp.areas), sp.areas, sp.range, addr, n, prot, out)
  {
    ghost var l := sp.areas;
    assert sp.Holds(k - 1) && sp.Holds(k);
    HintInGap(l, sp.range, k, addr, n, prot);
    Ordered(l, sp.range, k - 1, k);
    out := Ret(addr);
    if addr == prev.end && addr + n == cur.start && prot == prev.prot && prot == cur.prot {
      JoinBoth(sp, k - 1, prev, cur);
    } else if addr == prev.end && prot == prev.prot {
      Extend(sp, k - 1, prev, n);
    } else if addr + n == cur.start && prot == cur.prot {
      Lower(sp, k, cur, n);
    } else {
      if count >= MAX_AREAS {
        return Ret(-1);
      }
      AddAfter(sp, k - 1, prev, addr, n, prot);
    }
  }
}
