/** vm_area_mprotect of Assignment3/mmap.c: the areas under [addr, addr + length) get a
    new protection, by splitting, moving a boundary, merging, and calling itself for
    the rest of the range. */
module Mprotect {
  import opened Options
  import opened AreaList
  import opened AddressSpace
  import opened MprotectEdits

  /** The first loop: is the whole range mapped, whatever the areas it crosses? */
  method CoverageScan(sp: Space, addr: int, length: int) returns (covered: bool)
    requires sp.Valid() && length > 0
    ensures covered <==> Covered(sp.areas, addr, addr + length)
  {
    var cur := sp.head;
    var at, rest := addr, length;
    ghost var k := 0;
    while cur != null
      invariant k <= |sp.nodes| && cur == if k < |sp.nodes| then sp.nodes[k] else null
      invariant addr <= at && rest > 0 && at + rest == addr + length
      invariant Covered(sp.areas, addr, at)
      invariant forall i :: 0 <= i < k ==> !Contains(sp.areas[i], at)
      decreases |sp.nodes| - k, addr + length - at
    {
      assert sp.Holds(k);
      Ordered(sp.areas, sp.range, k, k);
      if cur.start <= at < cur.end {
        forall x | at <= x < cur.end ensures At(sp.areas, x).Some? {
          AtIndex(sp.areas, k, x);
        }
        if at + rest <= cur.end {
          return true;
        }
        forall i | 0 <= i < k ensures !Contains(sp.areas[i], cur.end) {
          Ordered(sp.areas, sp.range, i, k);
        }
        rest := rest - (cur.end - at);
        at := cur.end;
      } else {
        k := k + 1;
        cur := cur.next;
      }
    }
    AtNowhere(sp.areas, at);
    return false;
  }

  /** vm_area_mprotect */
  method VmAreaMprotect(sp: Space, addr: int, length: int, prot: int) returns (ret: int)
    requires sp.Valid() && OnPage(addr) && length > 0
    modifies sp, sp.nodes
    ensures sp.Valid() && forall n :: n in sp.nodes ==> n in old(sp.nodes) || fresh(n)
    ensures Outcome(old(sp.areas), sp.areas, addr, RoundUp(length), prot, ret)
    decreases RoundUp(length), 2
  {
    CoveredPages(sp.areas, sp.range, addr, length);
    var covered := CoverageScan(sp, addr, length);
    if !covered {
      return -1;
    }
    var n := RoundUp(length);
    var count := sp.CountAreas();
    var prev, cur, k := sp.Seek(addr);
    FirstArea(sp.areas, sp.range, k, addr, addr + n);
    // The other refusals of the source cannot apply to a covered range
    assert count <= MAX_AREAS && cur != null && sp.Holds(k) && cur.start <= addr;
    if addr > cur.start {
      ret := ProtectInside(sp, k, cur, count, addr, n, prot);
    } else {
      ret := ProtectFront(sp, k, prev, cur, count, addr, n, prot);
    }
  }

  /** A range on pages, covered, and the area in which it starts. */
  ghost predicate Ready(sp: Space, k: nat, cur: VmArea, count: nat, addr: int, length: int)
    reads sp, sp.nodes, cur
  {
    && sp.Valid() && k < |sp.nodes| && sp.nodes[k] == cur && sp.Holds(k)
    && count == |sp.areas|
    && OnPage(addr) && OnPage(length) && OnPage(addr + length) && length > 0
    && Covered(sp.areas, addr, addr + length)
  }

  // ----- the range starts strictly inside cur

  method ProtectInside(sp: Space, ghost k: nat, cur: VmArea, count: nat, addr: int, length: int, prot: int)
      returns (ret: int)
    requires Ready(sp, k, cur, count, addr, length) && cur.start < addr < cur.end
    modifies sp, sp.nodes
    ensures sp.Valid() && forall n :: n in sp.nodes ==> n in old(sp.nodes) || fresh(n)
    ensures Outcome(old(sp.areas), sp.areas, addr, length, prot, ret)
    decreases length, 1
  {
    RoomAt(sp.areas, sp.range, k, addr, addr + length, prot);
    if cur.prot == prot && addr + length <= cur.end {
      SameProt(sp.areas, sp.range, k, addr, addr + length);
      JoinedSame(sp.areas, sp.range, k, addr, addr + length);
      ret := 0;
    } else if addr + length < cur.end {
      ret := ProtectMiddle(sp, k, cur, count, addr, length, prot);
    } else if addr + length == cur.end {
      ret := ProtectTail(sp, k, cur, count, addr, length, prot);
    } else {
      ret := ProtectPastInside(sp, k, cur, count, addr, length, prot);
    }
  }

  /** Both sides of the range stay in cur: two new areas. */
  method ProtectMiddle(sp: Space, ghost k: nat, cur: VmArea, count: nat, addr: int, length: int, prot: int)
      returns (ret: int)
    requires Ready(sp, k, cur, count, addr, length) && cur.start < addr && addr + length < cur.end && cur.prot != prot
    modifies sp, sp.nodes
    ensures sp.Valid() && forall n :: n in sp.nodes ==> n in old(sp.nodes) || fresh(n)
    ensures Outcome(old(sp.areas), sp.areas, addr, length, prot, ret)
  {
    RoomAt(sp.areas, sp.range, k, addr, addr + length, prot);
    if count >= MAX_AREAS - 1 {
      return -1;
    }
    SplitInThree(sp, k, cur, addr, addr + length, prot);
    ret := 0;
  }

  method SplitInThree(sp: Space, ghost k: nat, cur: VmArea, lo: int, hi: int, prot: int)
    requires sp.Valid() && k < |sp.nodes| && sp.nodes[k] == cur && sp.Holds(k) && |sp.areas| < MAX_AREAS - 1
    requires cur.start < lo < hi < cur.end && OnPage(lo) && OnPage(hi)
    modifies sp, sp.nodes
    ensures sp.Valid() && forall n :: n in sp.nodes ==> n in old(sp.nodes) || fresh(n)
    ensures Updated(old(sp.areas), sp.areas, lo, hi, Some(prot))
    ensures old(cur.prot) != prot ==> Joined(old(sp.areas), sp.areas, lo, hi, prot)
    ensures sp.areas == var c := old(sp.areas)[k];
                        Replace(old(sp.areas), k, k + 1, [c.(end := lo), Area(lo, hi, prot), c.(start := hi)])
  {
    ghost var l := sp.areas;
    var right := sp.InsertAfter(k, cur, hi, cur.end, cur.prot);
    var middle := sp.InsertAfter(k, cur, lo, hi, prot);
    sp.SetEnd(k, cur, lo);
    ghost var mid := [l[k].(end := lo), Area(lo, hi, prot), l[k].(start := hi)];
    InThree(l, k, mid[0], mid[1], mid[2]);
    CutOut(l, sp.range, k, lo, hi, prot, mid);
    if l[k].prot != prot {
      CutJoined(l, sp.range, k, lo, hi, prot, mid);
    }
  }

  /** The range ends where cur ends: a new area, or the next one grows down. */
  method ProtectTail(sp: Space, ghost k: nat, cur: VmArea, count: nat, addr: int, length: int, prot: int)
      returns (ret: int)
    requires Ready(sp, k, cur, count, addr, length) && cur.start < addr && addr + length == cur.end && cur.prot != prot
    modifies sp, sp.nodes
    ensures sp.Valid() && forall n :: n in sp.nodes ==> n in old(sp.nodes) || fresh(n)
    ensures Outcome(old(sp.areas), sp.areas, addr, length, prot, ret)
  {
    RoomAt(sp.areas, sp.range, k, addr, addr + length, prot);
    ghost var l := sp.areas;
    var next := cur.next;
    assert k + 1 < |sp.nodes| ==> sp.Holds(k + 1);
    if next == null || next.start != cur.end || next.prot != prot {
      if count >= MAX_AREAS {
        return -1;
      }
      var right := CutEnd(sp, k, cur, addr, prot);
      CutJoined(l, sp.range, k, addr, addr + length, prot, [sp.areas[k], sp.areas[k + 1]]);
    } else {
      GrowNext(sp, k, cur, next, addr);
      DownJoined(l, sp.range, k, addr, [sp.areas[k], sp.areas[k + 1]]);
    }
    ret := 0;
  }

  /** The next area takes over the part of cur from addr on. */
  method GrowNext(sp: Space, ghost k: nat, cur: VmArea, next: VmArea, addr: int)
    requires sp.Valid() && k + 1 < |sp.nodes| && sp.nodes[k] == cur && sp.nodes[k + 1] == next && OnPage(addr)
    requires sp.areas[k].start < addr < sp.areas[k].end == sp.areas[k + 1].start
    modifies sp, sp.nodes
    ensures sp.Valid() && sp.nodes == old(sp.nodes)
    ensures Updated(old(sp.areas), sp.areas, addr, old(sp.areas)[k].end, Some(old(sp.areas)[k + 1].prot))
    ensures var l := old(sp.areas); sp.areas == l[k := l[k].(end := addr)][k + 1 := l[k + 1].(start := addr)]
    ensures sp.areas == Replace(old(sp.areas), k, k + 2, [sp.areas[k], sp.areas[k + 1]])
  {
    ghost var l := sp.areas;
    sp.SetEnd(k, cur, addr);
    sp.SetStart(k + 1, next, addr);
    ghost var mid := [l[k].(end := addr), l[k + 1].(start := addr)];
    assert sp.areas == Replace(l, k, k + 2, mid);
    MoveDown(l, sp.range, k, addr, mid);
  }

  /** The range goes on beyond cur. */
  method ProtectPastInside(sp: Space, ghost k: nat, cur: VmArea, count: nat, addr: int, length: int, prot: int)
      returns (ret: int)
    requires Ready(sp, k, cur, count, addr, length) && cur.start < addr < cur.end < addr + length
    modifies sp, sp.nodes
    ensures sp.Valid() && forall n :: n in sp.nodes ==> n in old(sp.nodes) || fresh(n)
    ensures Outcome(old(sp.areas), sp.areas, addr, length, prot, ret)
    decreases length, 0
  {
    RoomAt(sp.areas, sp.range, k, addr, addr + length, prot);
    ghost var l := sp.areas;
    var end := cur.end;
    NextAdjacent(l, sp.range, k, addr + length);
    assert cur.next != null;
    if cur.prot == prot {
      SameProt(l, sp.range, k, addr, end);
      BeginsWithin(l, sp.range, k, k + 1);
      FirstPartOf(l, l, sp.range, k, k, addr, prot);
      ret := ProtectRest(sp, addr, end, length, prot, l, k, k);
    } else {
      if count >= MAX_AREAS {
        return -1;
      }
      var right := CutEnd(sp, k, cur, addr, prot);
      CutFirst(l, sp.areas, sp.range, k, addr, prot);
      ret := ProtectRest(sp, addr, end, length, prot, l, k, k + 1);
    }
  }

  /** The part of cur from addr on becomes an area of its own. */
  method CutEnd(sp: Space, ghost k: nat, cur: VmArea, addr: int, prot: int) returns (right: VmArea)
    requires sp.Valid() && k < |sp.nodes| && sp.nodes[k] == cur && sp.Holds(k) && |sp.areas| < MAX_AREAS
    requires cur.start < addr < cur.end && OnPage(addr)
    modifies sp, sp.nodes
    ensures sp.Valid() && fresh(right) && sp.nodes == old(sp.nodes)[..k + 1] + [right] + old(sp.nodes)[k + 1..]
    ensures Updated(old(sp.areas), sp.areas, addr, old(cur.end), Some(prot))
    ensures k + 1 < |sp.areas| && sp.areas[k + 1] == Area(addr, old(cur.end), prot)
    ensures sp.areas[k] == old(sp.areas)[k].(end := addr)
    ensures sp.areas == Replace(old(sp.areas), k, k + 1, [sp.areas[k], sp.areas[k + 1]])
  {
    ghost var l := sp.areas;
    var end := cur.end;
    Ordered(l, sp.range, k, k);
    right := sp.InsertAfter(k, cur, addr, end, prot);
    sp.SetEnd(k, cur, addr);
    ghost var mid := [l[k].(end := addr), Area(addr, end, prot)];
    Behind(l, k, mid[0], mid[1]);
    CutOut(l, sp.range, k, addr, end, prot, mid);
    assert sp.areas[k] == mid[0] && sp.areas[k + 1] == mid[1];
  }

  /** The call for the rest of the range, from the end of what has been done. */
  method ProtectRest(sp: Space, addr: int, end: int, length: int, prot: int,
                     ghost l: seq<Area>, ghost k: nat, ghost i: nat) returns (ret: int)
    requires sp.Valid() && addr < end < addr + length && WellFormed(l, sp.range)
    requires OnPage(end) && OnPage(addr) && OnPage(length) && Covered(l, addr, addr + length)
    requires FirstPart(l, sp.areas, k, i, addr, prot) && l[k].end == end
    modifies sp, sp.nodes
    ensures sp.Valid() && forall n :: n in sp.nodes ==> n in old(sp.nodes) || fresh(n)
    ensures ret == 0 && Updated(l, sp.areas, addr, addr + length, Some(prot))
    ensures Joined(l, sp.areas, addr, addr + length, prot)
    decreases length - (end - addr), 3
  {
    ghost var l1 := sp.areas;
    var rest := length - (end - addr);
    PageSum(addr, length);
    PageSum(addr + length, end);
    assert Covered(l1, end, end + rest);
    RoomBehind(l1, sp.range, i, end, end + rest, prot);
    ret := VmAreaMprotect(sp, end, rest, prot);
    RestDone(l, l1, sp.areas, sp.range, k, i, addr, addr + length, rest, prot);
  }

  // ----- the range starts where cur starts

  method ProtectFront(sp: Space, ghost k: nat, prev: VmArea?, cur: VmArea, count: nat, addr: int, length: int,
                      prot: int) returns (ret: int)
    requires Ready(sp, k, cur, count, addr, length) && cur.start == addr
    requires prev == if k > 0 then sp.nodes[k - 1] else null
    modifies sp, sp.nodes
    ensures sp.Valid() && forall n :: n in sp.nodes ==> n in old(sp.nodes) || fresh(n)
    ensures Outcome(old(sp.areas), sp.areas, addr, length, prot, ret)
    decreases length, 1
  {
    RoomAt(sp.areas, sp.range, k, addr, addr + length, prot);
    assert k > 0 ==> sp.Holds(k - 1);
    var merge := prev != null && prev.end == cur.start && prev.prot == prot;
    if addr + length < cur.end {
      ret := ProtectHead(sp, k, prev, cur, count, addr, length, prot, merge);
    } else if addr + length == cur.end {
      ret := ProtectWhole(sp, k, prev, cur, addr, length, prot, merge);
    } else {
      ret := ProtectPastFront(sp, k, prev, cur, count, addr, length, prot, merge);
    }
  }

  /** The first part of cur: it moves to the previous area, or to a new one. */
  method ProtectHead(sp: Space, ghost k: nat, prev: VmArea?, cur: VmArea, count: nat, addr: int, length: int,
                     prot: int, merge: bool) returns (ret: int)
    requires Ready(sp, k, cur, count, addr, length) && cur.start == addr && addr + length < cur.end
    requires prev == if k > 0 then sp.nodes[k - 1] else null
    requires merge <==> k > 0 && sp.areas[k - 1].end == addr && sp.areas[k - 1].prot == prot
    modifies sp, sp.nodes
    ensures sp.Valid() && forall n :: n in sp.nodes ==> n in old(sp.nodes) || fresh(n)
    ensures Outcome(old(sp.areas), sp.areas, addr, length, prot, ret)
  {
    RoomAt(sp.areas, sp.range, k, addr, addr + length, prot);
    ghost var l := sp.areas;
    if cur.prot == prot {
      SameProt(l, sp.range, k, addr, addr + length);
      JoinedSame(l, sp.range, k, addr, addr + length);
    } else if merge {
      GrowPrev(sp, k, prev, cur, addr + length);
      UpJoined(l, sp.range, k, addr + length, [sp.areas[k - 1], sp.areas[k]]);
    } else {
      if count >= MAX_AREAS {
        return -1;
      }
      NewBefore(sp, k, prev, cur, addr, addr + length, prot);
      CutJoined(l, sp.range, k, addr, addr + length, prot, [sp.areas[k], sp.areas[k + 1]]);
    }
    ret := 0;
  }

  /** The previous area takes over the part of cur up to hi. */
  method GrowPrev(sp: Space, ghost k: nat, prev: VmArea, cur: VmArea, hi: int)
    requires sp.Valid() && 0 < k < |sp.nodes| && sp.nodes[k - 1] == prev && sp.nodes[k] == cur && OnPage(hi)
    requires sp.areas[k - 1].end == sp.areas[k].start < hi < sp.areas[k].end
    modifies sp, sp.nodes
    ensures sp.Valid() && sp.nodes == old(sp.nodes)
    ensures Updated(old(sp.areas), sp.areas, old(sp.areas)[k].start, hi, Some(old(sp.areas)[k - 1].prot))
    ensures sp.areas == old(sp.areas)[k - 1 := old(sp.areas)[k - 1].(end := hi)][k := old(sp.areas)[k].(start := hi)]
    ensures sp.areas == Replace(old(sp.areas), k - 1, k + 1, [sp.areas[k - 1], sp.areas[k]])
  {
    ghost var l := sp.areas;
    sp.SetEnd(k - 1, prev, hi);
    sp.SetStart(k, cur, hi);
    ghost var mid := [l[k - 1].(end := hi), l[k].(start := hi)];
    assert sp.areas == Replace(l, k - 1, k + 1, mid);
    MoveUp(l, sp.range, k, hi, mid);
  }

  /** A new area takes the first part of cur. */
  method NewBefore(sp: Space, ghost k: nat, prev: VmArea?, cur: VmArea, addr: int, hi: int, prot: int)
    requires sp.Valid() && k < |sp.nodes| && sp.nodes[k] == cur && |sp.areas| < MAX_AREAS
    requires prev == if k > 0 then sp.nodes[k - 1] else null
    requires sp.areas[k].start == addr < hi < sp.areas[k].end && OnPage(hi)
    modifies sp, sp.nodes
    ensures sp.Valid() && forall n :: n in sp.nodes ==> n in old(sp.nodes) || fresh(n)
    ensures Updated(old(sp.areas), sp.areas, addr, hi, Some(prot))
    ensures k + 1 < |sp.areas| && sp.areas[k] == Area(addr, hi, prot)
    ensures sp.areas[k + 1] == old(sp.areas)[k].(start := hi)
    ensures sp.areas == Replace(old(sp.areas), k, k + 1, [sp.areas[k], sp.areas[k + 1]])
  {
    ghost var l := sp.areas;
    if prev != null {
      var n := sp.InsertAfter(k - 1, prev, addr, hi, prot);
    } else {
      sp.PushFront(addr, hi, prot);
      assert sp.nodes[k + 1] == sp.nodes[1..][k];
    }
    sp.SetStart(k + 1, cur, hi);
    ghost var mid := [Area(addr, hi, prot), l[k].(start := hi)];
    InFront(l, k, mid[0], mid[1]);
    Ordered(l, sp.range, k, k);
    CutOut(l, sp.range, k, addr, hi, prot, mid);
  }

  /** prev takes over cur, which is freed. */
  method JoinPrevious(sp: Space, ghost k: nat, prev: VmArea, cur: VmArea)
    requires sp.Valid() && 0 < k < |sp.nodes| && sp.nodes[k - 1] == prev && sp.nodes[k] == cur
    requires sp.areas[k - 1].end == sp.areas[k].start
    modifies sp, sp.nodes
    ensures sp.Valid() && sp.nodes == old(sp.nodes)[..k] + old(sp.nodes)[k + 1..]
    ensures forall n :: n in sp.nodes ==> n in old(sp.nodes)
    ensures sp.areas == RemoveAt(old(sp.areas), k)[k - 1 := old(sp.areas)[k - 1].(end := old(sp.areas)[k].end)]
    ensures Updated(old(sp.areas), sp.areas, old(sp.areas)[k].start, old(sp.areas)[k].end,
        Some(old(sp.areas)[k - 1].prot))
  {
    ghost var l := sp.areas;
    assert sp.Holds(k);
    sp.SetEnd(k - 1, prev, cur.end);
    sp.UnlinkAfter(k - 1, prev);
    assert sp.areas == Replace(l, k - 1, k + 1, [l[k - 1].(end := l[k].end)]);
    Fuse(l, sp.range, k - 1, k + 1, k, l[k - 1].prot, sp.areas[k - 1]);
  }

  /** cur takes over the area behind it, which has the same protection and is freed. */
  method JoinNext(sp: Space, ghost k: nat, cur: VmArea, next: VmArea)
    requires sp.Valid() && k + 1 < |sp.nodes| && sp.nodes[k] == cur && sp.nodes[k + 1] == next
    requires sp.areas[k].end == sp.areas[k + 1].start && sp.areas[k].prot == sp.areas[k + 1].prot
    modifies sp, sp.nodes
    ensures sp.Valid() && forall n :: n in sp.nodes ==> n in old(sp.nodes)
    ensures sp.areas == Replace(old(sp.areas), k, k + 2, [old(sp.areas)[k].(end := old(sp.areas)[k + 1].end)])
  {
    ghost var l := sp.areas;
    assert sp.Holds(k + 1);
    sp.SetEnd(k, cur, next.end);
    sp.UnlinkAfter(k, cur);
    assert sp.areas == Replace(l, k, k + 2, [l[k].(end := l[k + 1].end)]);
    Fuse(l, sp.range, k, k + 2, k, l[k].prot, sp.areas[k]);
  }

  /** cur changes its protection. */
  method Recolour(sp: Space, ghost k: nat, cur: VmArea, prot: int)
    requires sp.Valid() && k < |sp.nodes| && sp.nodes[k] == cur
    modifies sp, sp.nodes
    ensures sp.Valid() && sp.nodes == old(sp.nodes)
    ensures sp.areas == old(sp.areas)[k := old(sp.areas)[k].(prot := prot)]
    ensures Updated(old(sp.areas), sp.areas, old(sp.areas)[k].start, old(sp.areas)[k].end, Some(prot))
  {
    ghost var l := sp.areas;
    sp.SetProt(k, cur, prot);
    assert sp.areas == Replace(l, k, k + 1, [l[k].(prot := prot)]);
    Fuse(l, sp.range, k, k + 1, k, prot, sp.areas[k]);
  }

  /** All of cur: it joins its neighbours where they have the protection already. */
  method ProtectWhole(sp: Space, ghost k: nat, prev: VmArea?, cur: VmArea, addr: int, length: int, prot: int,
                      merge: bool) returns (ret: int)
    requires Ready(sp, k, cur, |sp.areas|, addr, length) && cur.start == addr && addr + length == cur.end
    requires prev == if k > 0 then sp.nodes[k - 1] else null
    requires merge <==> k > 0 && sp.areas[k - 1].end == addr && sp.areas[k - 1].prot == prot
    modifies sp, sp.nodes
    ensures sp.Valid() && forall n :: n in sp.nodes ==> n in old(sp.nodes) || fresh(n)
    ensures ret == 0 && Updated(old(sp.areas), sp.areas, addr, addr + length, Some(prot))
    ensures sp.areas == Fused(old(sp.areas), k, prot) && Joined(old(sp.areas), sp.areas, addr, addr + length, prot)
  {
    FusedJoined(sp.areas, sp.range, k, prot);
    JoinNeighbours(sp, k, prev, cur, prot, merge);
    ret := 0;
  }

  method JoinNeighbours(sp: Space, ghost k: nat, prev: VmArea?, cur: VmArea, prot: int, merge: bool)
    requires sp.Valid() && k < |sp.nodes| && sp.nodes[k] == cur && sp.Holds(k)
    requires prev == if k > 0 then sp.nodes[k - 1] else null
    requires merge <==> PrevHas(sp.areas, k, prot)
    modifies sp, sp.nodes
    ensures sp.Valid() && forall n :: n in sp.nodes ==> n in old(sp.nodes) || fresh(n)
    ensures sp.areas == Fused(old(sp.areas), k, prot)
  {
    ghost var l := sp.areas;
    FusedSteps(l, k, prot);
    assert k + 1 < |sp.nodes| ==> sp.Holds(k + 1);
    // The fields of cur are read before the node is freed
    var next := cur.next;
    var both := next != null && cur.end == next.start && next.prot == prot;
    if merge {
      JoinPrevious(sp, k, prev, cur);
      if both {
        assert sp.nodes[k] == next && sp.areas[k] == l[k + 1];
        JoinNext(sp, k - 1, prev, next);
      }
    } else {
      Recolour(sp, k, cur, prot);
      if both {
        JoinNext(sp, k, cur, next);
      }
    }
  }

  /** All of cur and more: cur joins the previous area or changes, and the call goes on. */
  method ProtectPastFront(sp: Space, ghost k: nat, prev: VmArea?, cur: VmArea, count: nat, addr: int, length: int,
                          prot: int, merge: bool) returns (ret: int)
    requires Ready(sp, k, cur, count, addr, length) && cur.start == addr < cur.end < addr + length
    requires prev == if k > 0 then sp.nodes[k - 1] else null
    requires merge <==> k > 0 && sp.areas[k - 1].end == addr && sp.areas[k - 1].prot == prot
    modifies sp, sp.nodes
    ensures sp.Valid() && forall n :: n in sp.nodes ==> n in old(sp.nodes) || fresh(n)
    ensures Outcome(old(sp.areas), sp.areas, addr, length, prot, ret)
    decreases length, 0
  {
    RoomAt(sp.areas, sp.range, k, addr, addr + length, prot);
    ghost var l := sp.areas;
    var end := cur.end;
    NextAdjacent(l, sp.range, k, addr + length);
    assert cur.next != null;
    if merge {
      JoinPrevious(sp, k, prev, cur);
    } else if cur.prot == prot {
      assert sp.areas == l[k := l[k].(prot := prot)];
    } else {
      Recolour(sp, k, cur, prot);
    }
    FrontFirst(l, sp.areas, sp.range, k, prot);
    ret := ProtectRest(sp, addr, end, length, prot, l, k, if merge then k - 1 else k);
  }
}
