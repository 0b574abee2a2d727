/** Any sequence of the calls of mmap.c on one process. */
module MmapRuns {
  import opened Options
  import opened AreaList
  import opened AddressSpace
  import Map = Mmap
  import Edits = MprotectEdits
  import Protect = Mprotect
  import Unmap = Munmap

  datatype Call =
    | MapCall(addr: int, length: int, prot: int, flags: Map.Flags)
    | UnmapCall(addr: int, length: int)
    | ProtectCall(addr: int, length: int, prot: int)

  predicate Callable(call: Call) {
    OnPage(call.addr) && call.length > 0
  }

  /** What a call that returns does to the list. */
  ghost predicate Did(r: Range, before: seq<Area>, call: Call, after: seq<Area>)
  {
    && Callable(call)
    && var n := RoundUp(call.length);
       match call
       case MapCall(addr, _, prot, flags) =>
         exists out: Map.Outcome, base: int ::
           && out.Ret?
           && if addr == 0 then Map.Searched(before, after, r, n, prot, out, base)
              else Map.Hinted(before, after, r, addr, n, prot, flags, out, base)
       case UnmapCall(addr, _) =>
         if Unmap.Splits(before, addr, addr + n) && |before| == MAX_AREAS then after == before
         else Unmap.Unmapped(before, after, addr, addr + n) && Unmap.SeamsOutside(before, after, addr, addr + n)
       case ProtectCall(addr, _, prot) =>
         exists ret :: Edits.Outcome(before, after, addr, n, prot, ret)
  }

  /** A call that does not return, since it searches for a gap that is not there, and one
      that would move an area out of the range. */
  ghost predicate Fails(r: Range, l: seq<Area>, call: Call)
  {
    && Callable(call) && l != []
    && match call
       case MapCall(_, length, _, _) => !Map.Fits(l, r, RoundUp(length))
       case UnmapCall(addr, length) => addr + RoundUp(length) < r.lo
       case ProtectCall(_, _, _) => false
  }

  method PerformMap(sp: Space, call: Call) returns (ok: bool)
    requires sp.Valid() && OnPage(sp.range.lo) && sp.range.lo >= 0 && Callable(call) && call.MapCall?
    modifies sp, sp.nodes
    ensures sp.Valid() && forall m :: m in sp.nodes ==> m in old(sp.nodes) || fresh(m)
    ensures if ok then Did(sp.range, old(sp.areas), call, sp.areas)
            else sp.areas == old(sp.areas) && Fails(sp.range, sp.areas, call)
  {
    var n := RoundUp(call.length);
    var out, base := Map.VmAreaMap(sp, call.addr, call.length, call.prot, call.flags);
    ok := out.Ret?;
    if call.addr != 0 {
      Map.HintedMeaning(old(sp.areas), sp.areas, sp.range, call.addr, n, call.prot, call.flags, out, base);
    }
  }

  /** One call.  ok is false if it cannot be made. */
  method Perform(sp: Space, call: Call) returns (ok: bool)
    requires sp.Valid() && OnPage(sp.range.lo) && sp.range.lo >= 0 && Callable(call)
    modifies sp, sp.nodes
    ensures sp.Valid() && forall m :: m in sp.nodes ==> m in old(sp.nodes) || fresh(m)
    ensures if ok then Did(sp.range, old(sp.areas), call, sp.areas)
            else sp.areas == old(sp.areas) && Fails(sp.range, sp.areas, call)
  {
    match call
    case MapCall(_, _, _, _) =>
      ok := PerformMap(sp, call);
    case UnmapCall(addr, length) =>
      ok := sp.range.lo <= addr + RoundUp(length) || sp.head == null;
      if ok {
        var _ := Unmap.VmAreaUnmap(sp, addr, length);
      }
    case ProtectCall(addr, length, prot) =>
      var _ := Protect.VmAreaMprotect(sp, addr, length, prot);
      ok := true;
  }

  /** The calls, one after the other, up to the first that cannot be made: after each of
      them the list is as it should be. */
  method PerformAll(sp: Space, calls: seq<Call>) returns (n: nat, ghost lists: seq<seq<Area>>)
    requires sp.Valid() && OnPage(sp.range.lo) && sp.range.lo >= 0
    requires forall i :: 0 <= i < |calls| ==> Callable(calls[i])
    modifies sp, sp.nodes
    ensures sp.Valid() && n <= |calls| && |lists| == n + 1
    ensures lists[0] == old(sp.areas) && lists[n] == sp.areas
    ensures forall i :: 0 <= i <= n ==> WellFormed(lists[i], sp.range)
    ensures forall i :: 0 <= i < n ==> Did(sp.range, lists[i], calls[i], lists[i + 1])
    ensures n < |calls| ==> Fails(sp.range, sp.areas, calls[n])
  {
    n, lists := 0, [sp.areas];
    while n < |calls|
      invariant n <= |calls| && |lists| == n + 1 && lists[0] == old(sp.areas) && lists[n] == sp.areas
      invariant sp.Valid() && forall m :: m in sp.nodes ==> m in old(sp.nodes) || fresh(m)
      invariant forall i :: 0 <= i <= n ==> WellFormed(lists[i], sp.range)
      invariant forall i :: 0 <= i < n ==> Did(sp.range, lists[i], calls[i], lists[i + 1])
    {
      assert forall i :: 0 <= i < |sp.nodes| ==> sp.nodes[i] in old(sp.nodes) || fresh(sp.nodes[i]);
      var ok := Perform(sp, calls[n]);
      if !ok {
        return;
      }
      lists := lists + [sp.areas];
      n := n + 1;
    }
  }

  // ----- what a call does is all that it may do

  lemma SearchedOnce(l: seq<Area>, a: seq<Area>, b: seq<Area>, r: Range, n: int, prot: int,
                     out: Map.Outcome, base: int, out': Map.Outcome, base': int)
    requires WellFormed(a, r) && WellFormed(b, r)
    requires Map.Searched(l, a, r, n, prot, out, base) && Map.Searched(l, b, r, n, prot, out', base')
    ensures a == b && out == out'
  {
    if Map.Fits(l, r, n) {
      Map.FirstFitUnique(l, r, base, base', n);
    }
    if Map.Succeeds(out) {
      SameList(a, b, r);
    }
  }

  lemma {:induction false} HintedOnce(l: seq<Area>, a: seq<Area>, b: seq<Area>, r: Range, addr: int, n: int, prot: int,
                                      flags: Map.Flags, out: Map.Outcome, base: int, out': Map.Outcome, base': int)
    requires WellFormed(a, r) && WellFormed(b, r)
    requires Map.Hinted(l, a, r, addr, n, prot, flags, out, base)
    requires Map.Hinted(l, b, r, addr, n, prot, flags, out', base')
    ensures a == b && out == out'
    decreases r.hi - addr
  {
    var h := Map.NextHint(l, addr);
    if addr < r.lo || addr > r.hi {
    } else if addr + n > r.hi {
      if flags != Map.Flags(true, false) {
        SearchedOnce(l, a, b, r, n, prot, out, base, out', base');
      }
    } else if Free(l, addr, n) {
      if Map.Succeeds(out) {
        SameList(a, b, r);
      }
    } else if !flags.fixed {
      if h > addr && h + addr <= r.hi {
        HintedOnce(l, a, b, r, h, n, prot, flags, out, base, out', base');
      } else {
        SearchedOnce(l, a, b, r, n, prot, out, base, out', base');
      }
    }
  }

  /** The list before a call and the call decide the list behind it. */
  lemma DidOnce(r: Range, l: seq<Area>, call: Call, a: seq<Area>, b: seq<Area>)
    requires WellFormed(a, r) && WellFormed(b, r) && Did(r, l, call, a) && Did(r, l, call, b)
    ensures a == b
  {
    var n := RoundUp(call.length);
    match call
    case MapCall(addr, _, prot, flags) =>
      if addr == 0 {
        var out, base :| Map.Searched(l, a, r, n, prot, out, base);
        var out', base' :| Map.Searched(l, b, r, n, prot, out', base');
        SearchedOnce(l, a, b, r, n, prot, out, base, out', base');
      } else {
        var out, base :| Map.Hinted(l, a, r, addr, n, prot, flags, out, base);
        var out', base' :| Map.Hinted(l, b, r, addr, n, prot, flags, out', base');
        HintedOnce(l, a, b, r, addr, n, prot, flags, out, base, out', base');
      }
    case UnmapCall(addr, _) =>
      if !(Unmap.Splits(l, addr, addr + n) && |l| == MAX_AREAS) {
        SameList(a, b, r);
      }
    case ProtectCall(addr, _, prot) =>
      var ret :| Edits.Outcome(l, a, addr, n, prot, ret);
      var ret' :| Edits.Outcome(l, b, addr, n, prot, ret');
      if ret == 0 {
        SameList(a, b, r);
      }
  }

  // ----- seams

  ghost predicate Seamless(l: seq<Area>) {
    forall x :: !Seam(l, x)
  }

  /** Calls that never make a seam: a search, and unmapping. */
  predicate Joining(call: Call) {
    call.UnmapCall? || (call.MapCall? && call.addr == 0)
  }

  lemma KeepsSeamless(r: Range, before: seq<Area>, call: Call, after: seq<Area>)
    requires Did(r, before, call, after) && Joining(call) && Seamless(before)
    ensures Seamless(after)
  {
    if call.MapCall? {
      var out, base :| Map.Searched(before, after, r, RoundUp(call.length), call.prot, out, base);
    }
  }

  /** A process that starts with no areas, maps without hints and unmaps has at each moment as
      few areas as its mapped addresses and their protections allow. */
  lemma {:induction false} FewestAlways(r: Range, calls: seq<Call>, lists: seq<seq<Area>>, i: nat, other: seq<Area>)
    requires |lists| <= |calls| + 1 && i < |lists| && lists[0] == []
    requires forall j :: 0 <= j < |lists| - 1 ==> Did(r, lists[j], calls[j], lists[j + 1]) && Joining(calls[j])
    requires WellFormed(lists[i], r) && WellFormed(other, r) && forall x :: At(other, x) == At(lists[i], x)
    ensures |lists[i]| <= |other|
  {
    SeamlessAlways(r, calls, lists, i);
    Fewest(lists[i], other, r);
  }

  lemma {:induction false} SeamlessAlways(r: Range, calls: seq<Call>, lists: seq<seq<Area>>, i: nat)
    requires |lists| <= |calls| + 1 && i < |lists| && lists[0] == []
    requires forall j :: 0 <= j < |lists| - 1 ==> Did(r, lists[j], calls[j], lists[j + 1]) && Joining(calls[j])
    ensures Seamless(lists[i])
  {
    if i > 0 {
      SeamlessAlways(r, calls, lists, i - 1);
      assert Did(r, lists[i - 1], calls[i - 1], lists[i - 1 + 1]);
      KeepsSeamless(r, lists[i - 1], calls[i - 1], lists[i]);
    }
  }

  /** Changing protections makes a seam if and only if an area that has the protection starts
      inside the range and goes on behind it: the areas before it are not joined with it. */
  lemma ProtectMakesSeam(before: seq<Area>, after: seq<Area>, addr: int, hi: int, prot: int)
    requires Edits.Outcome(before, after, addr, hi - addr, prot, 0) && addr < hi && Seamless(before)
    ensures Seamless(after) <==> forall x :: addr < x < hi ==> !Edits.Outlasts(before, x, hi, prot)
  {
    if x :| addr < x < hi && Edits.Outlasts(before, x, hi, prot) {
      assert Edits.Skipped(before, addr, hi, prot, x);
      assert Seam(after, x);
    }
    forall x | Seam(after, x) ensures addr < x < hi && Edits.Outlasts(before, x, hi, prot) {
      assert Edits.Skipped(before, addr, hi, prot, x);
    }
  }

  /** Two pages get the protection that the second one, and the one behind it, have. */
  lemma ProtectSeamed(after: seq<Area>)
    requires Edits.Outcome([Area(0, 4096, 1), Area(4096, 12288, 2)], after, 0, 8192, 2, 0)
    ensures Seam(after, 4096) && At(after, 4095) == Some(2) == At(after, 4096)
  {
    var l := [Area(0, 4096, 1), Area(4096, 12288, 2)];
    assert l[1].start == 4096;
    assert Edits.Outlasts(l, 4096, 8192, 2);
    assert Edits.Skipped(l, 0, 8192, 2, 4096);
  }

  /** A hint in front of all areas or behind them makes a seam if and only if the run touches
      an area with its protection there. */
  lemma HintMakesSeam(before: seq<Area>, after: seq<Area>, r: Range, addr: int, n: int, prot: int, out: Map.Outcome)
    requires WellFormed(before, r) && n > 0 && Free(before, addr, n) && Seamless(before)
    requires Map.HintTaken(before, after, r, addr, n, prot, out) && Map.Succeeds(out)
    ensures Seamless(after) <==> Map.Between(before, addr, n) || !Map.Touched(before, addr, n, prot)
  {
    if !Map.Between(before, addr, n) && Map.Touched(before, addr, n, prot) {
      assert Seam(after, if Map.EndsAt(before, addr, prot) then addr else addr + n);
    }
  }
}
