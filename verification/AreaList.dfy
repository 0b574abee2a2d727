/** Sorted lists of virtual-memory areas as values, and what they say about each address. */
module AreaList {
  import opened Options

  const PAGE: int := 4096

  /** mmap.c refuses to go beyond this many areas. */
  const MAX_AREAS: nat := 128

  /** The half-open interval [start, end) with one protection. */
  datatype Area = Area(start: int, end: int, prot: int)

  /** The addresses the areas may use: MMAP_AREA_START and MMAP_AREA_END. */
  datatype Range = Range(lo: int, hi: int)

  predicate OnPage(x: int) {
    x % PAGE == 0
  }

  predicate Contains(a: Area, x: int) {
    a.start <= x < a.end
  }

  /** The protection of address x: the view that the list stands for. */
  function At(l: seq<Area>, x: int): Option<int> {
    if l == [] then None
    else if Contains(l[0], x) then Some(l[0].prot)
    else At(l[1..], x)
  }

  /** Some area starts at x. */
  predicate Begins(l: seq<Area>, x: int) {
    exists k :: 0 <= k < |l| && l[k].start == x
  }

  /** Two areas with one protection touch at x: they could be one. */
  predicate Seam(l: seq<Area>, x: int) {
    Begins(l, x) && At(l, x - 1) == At(l, x)
  }

  predicate Good(a: Area, r: Range) {
    OnPage(a.start) && OnPage(a.end) && r.lo <= a.start < a.end <= r.hi
  }

  predicate Sorted(l: seq<Area>) {
    forall i, j :: 0 <= i < j < |l| ==> l[i].end <= l[j].start
  }

  /** Sorted, disjoint, non-empty, page-aligned, inside the range, and not too many. */
  predicate WellFormed(l: seq<Area>, r: Range) {
    && |l| <= MAX_AREAS
    && Sorted(l)
    && (forall i :: 0 <= i < |l| ==> Good(l[i], r))
  }

  /** The view after an edit: as before, except on [lo, hi). */
  ghost predicate Updated(before: seq<Area>, after: seq<Area>, lo: int, hi: int, prot: Option<int>) {
    forall x :: At(after, x) == if lo <= x < hi then prot else At(before, x)
  }

  /** Every address of [lo, hi) is mapped. */
  ghost predicate Covered(l: seq<Area>, lo: int, hi: int) {
    forall x :: lo <= x < hi ==> At(l, x).Some?
  }

  /** None of the n addresses from base on is mapped. */
  ghost predicate Free(l: seq<Area>, base: int, n: int) {
    forall x :: base <= x < base + n ==> At(l, x) == None
  }

  function InsertAt(l: seq<Area>, k: nat, a: Area): seq<Area>
    requires k <= |l|
  {
    l[..k] + [a] + l[k..]
  }

  function RemoveAt(l: seq<Area>, k: nat): seq<Area>
    requires k < |l|
  {
    l[..k] + l[k + 1..]
  }

  /** Lengths are rounded up to whole pages. */
  function RoundUp(length: int): (n: int)
    requires length > 0
    ensures OnPage(n) && length <= n < length + PAGE
  {
    if length % PAGE != 0 then length + (PAGE - length % PAGE) else length
  }

  lemma PageSum(x: int, n: int)
    requires OnPage(x) && OnPage(n)
    ensures OnPage(x + n) && OnPage(x - n)
  {
  }

  /** A page that starts before a page boundary ends no later than it. */
  lemma RoundUpBelow(addr: int, length: int, end: int)
    requires OnPage(addr) && OnPage(end) && length > 0
    ensures addr + length <= end <==> addr + RoundUp(length) <= end
  {
    var n := RoundUp(length);
    PageSum(end, addr);
  }

  /** Two areas of a well-formed list: both good, and in order. */
  lemma Ordered(l: seq<Area>, r: Range, i: nat, j: nat)
    requires WellFormed(l, r) && i < |l| && j < |l|
    ensures Good(l[i], r) && Good(l[j], r)
    ensures i < j ==> l[i].end <= l[j].start
    ensures j < i ==> l[j].end <= l[i].start
  {
  }

  // ----- the view of a list

  lemma {:induction false} AtNowhere(l: seq<Area>, x: int)
    requires forall i :: 0 <= i < |l| ==> !Contains(l[i], x)
    ensures At(l, x) == None
  {
    if l != [] {
      AtNowhere(l[1..], x);
    }
  }

  lemma {:induction false} AtConcat(a: seq<Area>, b: seq<Area>, x: int)
    ensures At(a + b, x) == if At(a, x).Some? then At(a, x) else At(b, x)
  {
    if a == [] {
      assert a + b == b;
    } else {
      assert (a + b)[1..] == a[1..] + b;
      AtConcat(a[1..], b, x);
    }
  }

  /** In a sorted list the view at x is that of any area that contains x. */
  lemma {:induction false} AtIndex(l: seq<Area>, i: nat, x: int)
    requires Sorted(l) && i < |l| && Contains(l[i], x)
    requires forall j :: 0 <= j < |l| ==> l[j].start < l[j].end
    ensures At(l, x) == Some(l[i].prot)
  {
    if i > 0 {
      AtIndex(l[1..], i - 1, x);
    }
  }

  /** Some area contains every mapped address. */
  lemma {:induction false} AtWitness(l: seq<Area>, x: int) returns (i: nat)
    requires At(l, x).Some?
    ensures i < |l| && Contains(l[i], x)
  {
    if Contains(l[0], x) {
      i := 0;
    } else {
      i := AtWitness(l[1..], x);
      i := i + 1;
    }
  }

  lemma AtShort(a: Area, b: Area, c: Area, x: int)
    ensures At([a], x) == if Contains(a, x) then Some(a.prot) else None
    ensures At([a, b], x) == if Contains(a, x) then Some(a.prot) else At([b], x)
    ensures At([a, b, c], x) == if Contains(a, x) then Some(a.prot) else At([b, c], x)
  {
    assert [a][1..] == [];
    assert [a, b][1..] == [b];
    assert [a, b, c][1..] == [b, c];
  }

  // ----- replacing a stretch of the list

  /** Areas i up to j lie in the window [w0, w1), and the others outside it. */
  predicate Window(l: seq<Area>, i: nat, j: nat, w0: int, w1: int)
    requires i <= j <= |l|
  {
    && w0 <= w1
    && (i > 0 ==> l[i - 1].end <= w0)
    && (j < |l| ==> w1 <= l[j].start)
    && (forall n :: i <= n < j ==> w0 <= l[n].start && l[n].end <= w1)
  }

  function Replace(l: seq<Area>, i: nat, j: nat, mid: seq<Area>): seq<Area>
    requires i <= j <= |l|
  {
    l[..i] + mid + l[j..]
  }

  lemma WindowAt(pre: seq<Area>, mid: seq<Area>, post: seq<Area>, w0: int, w1: int, x: int)
    requires forall n :: 0 <= n < |pre| ==> pre[n].end <= w0
    requires forall n :: 0 <= n < |mid| ==> w0 <= mid[n].start && mid[n].end <= w1
    requires forall n :: 0 <= n < |post| ==> w1 <= post[n].start
    ensures At(pre + mid + post, x) == if w0 <= x < w1 then At(mid, x) else At(pre + post, x)
  {
    AtConcat(pre + mid, post, x);
    AtConcat(pre, mid, x);
    AtConcat(pre, post, x);
    if w0 <= x < w1 {
      AtNowhere(pre, x);
      AtNowhere(post, x);
    } else {
      AtNowhere(mid, x);
    }
  }

  lemma SpliceSides(l: seq<Area>, r: Range, i: nat, j: nat, w0: int, w1: int)
    requires WellFormed(l, r) && i <= j <= |l| && Window(l, i, j, w0, w1)
    ensures forall n :: 0 <= n < i ==> l[n].end <= w0
    ensures forall n :: j <= n < |l| ==> w1 <= l[n].start
  {
    forall n | 0 <= n < i ensures l[n].end <= w0 {
      if n < i - 1 {
        assert Good(l[i - 1], r) && l[n].end <= l[i - 1].start;
      }
    }
    forall n | j <= n < |l| ensures w1 <= l[n].start {
      if n > j {
        assert Good(l[j], r) && l[j].end <= l[n].start;
      }
    }
  }

  lemma SpliceSorted(pre: seq<Area>, mid: seq<Area>, post: seq<Area>, w0: int, w1: int)
    requires Sorted(pre) && Sorted(mid) && Sorted(post) && w0 <= w1
    requires forall n :: 0 <= n < |pre| ==> pre[n].end <= w0
    requires forall n :: 0 <= n < |mid| ==> w0 <= mid[n].start && mid[n].end <= w1
    requires forall n :: 0 <= n < |post| ==> w1 <= post[n].start
    ensures Sorted(pre + mid + post)
  {
    var l := pre + mid + post;
    forall i, j | 0 <= i < j < |l| ensures l[i].end <= l[j].start {
      var p, q := |pre|, |pre| + |mid|;
      if i < p {
        assert l[i].end <= w0;
      } else if i < q {
        assert l[i] == mid[i - p] && l[i].end <= w1;
      } else {
        assert l[i] == post[i - q] && l[j] == post[j - q];
      }
    }
  }

  lemma SpliceView(l: seq<Area>, r: Range, i: nat, j: nat, w0: int, w1: int, mid: seq<Area>, x: int)
    requires WellFormed(l, r) && i <= j <= |l| && Window(l, i, j, w0, w1)
    requires forall n :: 0 <= n < |mid| ==> w0 <= mid[n].start && mid[n].end <= w1
    ensures At(Replace(l, i, j, mid), x) == if w0 <= x < w1 then At(mid, x) else At(l, x)
    ensures w0 <= x < w1 ==> At(l, x) == At(l[i..j], x)
  {
    SpliceSides(l, r, i, j, w0, w1);
    var pre, cut, post := l[..i], l[i..j], l[j..];
    assert l == pre + cut + post;
    WindowAt(pre, mid, post, w0, w1, x);
    WindowAt(pre, cut, post, w0, w1, x);
  }

  lemma SpliceWellFormed(l: seq<Area>, r: Range, i: nat, j: nat, w0: int, w1: int, mid: seq<Area>)
    requires WellFormed(l, r) && i <= j <= |l| && Window(l, i, j, w0, w1)
    requires |l| + |mid| <= MAX_AREAS + (j - i)
    requires Sorted(mid)
    requires forall n :: 0 <= n < |mid| ==> Good(mid[n], r) && w0 <= mid[n].start && mid[n].end <= w1
    ensures WellFormed(Replace(l, i, j, mid), r)
  {
    SpliceSides(l, r, i, j, w0, w1);
    SpliceSorted(l[..i], mid, l[j..], w0, w1);
    var l' := Replace(l, i, j, mid);
    forall n | 0 <= n < |l'| ensures Good(l'[n], r) {
      if n >= i + |mid| {
        assert l'[n] == l[n - |mid| + (j - i)];
      } else if n >= i {
        assert l'[n] == mid[n - i];
      }
    }
  }

  lemma BeginsConcat(a: seq<Area>, b: seq<Area>, x: int)
    ensures Begins(a + b, x) <==> Begins(a, x) || Begins(b, x)
  {
    if k :| 0 <= k < |a| && a[k].start == x {
      assert (a + b)[k].start == x;
    }
    if k :| 0 <= k < |b| && b[k].start == x {
      assert (a + b)[|a| + k].start == x;
    }
    if k :| 0 <= k < |a + b| && (a + b)[k].start == x {
      assert k < |a| ==> a[k].start == x;
      assert k >= |a| ==> b[k - |a|].start == x;
    }
  }

  /** The starts change inside the window only, as the view does. */
  lemma SpliceBegins(l: seq<Area>, r: Range, i: nat, j: nat, w0: int, w1: int, mid: seq<Area>, x: int)
    requires WellFormed(l, r) && i <= j <= |l| && Window(l, i, j, w0, w1)
    requires forall n :: 0 <= n < |mid| ==> Good(mid[n], r) && w0 <= mid[n].start && mid[n].end <= w1
    ensures Begins(Replace(l, i, j, mid), x) <==> if w0 <= x < w1 then Begins(mid, x) else Begins(l, x)
  {
    SpliceSides(l, r, i, j, w0, w1);
    var pre, cut, post := l[..i], l[i..j], l[j..];
    assert l == pre + cut + post;
    BeginsConcat(pre + mid, post, x);
    BeginsConcat(pre, mid, x);
    BeginsConcat(pre + cut, post, x);
    BeginsConcat(pre, cut, x);
    OutsideWindow(l, r, i, j, w0, w1, x);
  }

  lemma OutsideWindow(l: seq<Area>, r: Range, i: nat, j: nat, w0: int, w1: int, x: int)
    requires WellFormed(l, r) && i <= j <= |l| && Window(l, i, j, w0, w1)
    ensures Begins(l[..i], x) ==> x < w0
    ensures Begins(l[i..j], x) ==> w0 <= x < w1
    ensures Begins(l[j..], x) ==> w1 <= x
  {
    SpliceSides(l, r, i, j, w0, w1);
    assert forall n :: 0 <= n < |l| ==> Good(l[n], r);
  }

  /** A window of the list is replaced by good areas: the result is well formed, and
      the view and the starts change only inside the window. */
  lemma Splice(l: seq<Area>, r: Range, i: nat, j: nat, w0: int, w1: int, mid: seq<Area>)
    requires WellFormed(l, r) && i <= j <= |l| && Window(l, i, j, w0, w1)
    requires |l| + |mid| <= MAX_AREAS + (j - i)
    requires Sorted(mid)
    requires forall n :: 0 <= n < |mid| ==> Good(mid[n], r) && w0 <= mid[n].start && mid[n].end <= w1
    ensures WellFormed(Replace(l, i, j, mid), r)
    ensures forall x :: At(Replace(l, i, j, mid), x)
                     == if w0 <= x < w1 then At(mid, x) else At(l, x)
    ensures forall x :: w0 <= x < w1 ==> At(l, x) == At(l[i..j], x)
    ensures forall x :: Begins(Replace(l, i, j, mid), x) <==> if w0 <= x < w1 then Begins(mid, x) else Begins(l, x)
  {
    SpliceWellFormed(l, r, i, j, w0, w1, mid);
    forall x
      ensures At(Replace(l, i, j, mid), x) == if w0 <= x < w1 then At(mid, x) else At(l, x)
      ensures w0 <= x < w1 ==> At(l, x) == At(l[i..j], x)
    {
      SpliceView(l, r, i, j, w0, w1, mid, x);
    }
    forall x
      ensures Begins(Replace(l, i, j, mid), x) <==> if w0 <= x < w1 then Begins(mid, x) else Begins(l, x)
    {
      SpliceBegins(l, r, i, j, w0, w1, mid, x);
    }
  }

  /** Area k is resized to b, in the room that its neighbours leave. */
  lemma ResizeAt(l: seq<Area>, r: Range, k: nat, b: Area, x: int)
    requires WellFormed(l, r) && k < |l| && Good(b, r)
    requires (k > 0 ==> l[k - 1].end <= b.start) && (k + 1 < |l| ==> b.end <= l[k + 1].start)
    ensures WellFormed(l[k := b], r)
    ensures At(l[k := b], x) == if Contains(b, x) then Some(b.prot) else if Contains(l[k], x) then None else At(l, x)
    ensures Contains(l[k], x) ==> At(l, x) == Some(l[k].prot)
  {
    var a := l[k];
    var w0 := if a.start < b.start then a.start else b.start;
    var w1 := if a.end > b.end then a.end else b.end;
    Alone(l, r, k);
    assert l[k := b] == Replace(l, k, k + 1, [b]) && l[k..k + 1] == [a];
    SpliceWellFormed(l, r, k, k + 1, w0, w1, [b]);
    SpliceView(l, r, k, k + 1, w0, w1, [b], x);
    AtShort(a, b, b, x);
    AtShort(b, b, b, x);
  }

  lemma Resize(l: seq<Area>, l': seq<Area>, r: Range, k: nat, b: Area)
    requires WellFormed(l, r) && k < |l| && Good(b, r) && l' == l[k := b]
    requires (k > 0 ==> l[k - 1].end <= b.start) && (k + 1 < |l| ==> b.end <= l[k + 1].start)
    ensures WellFormed(l', r)
    ensures forall x ::
              At(l', x) == if Contains(b, x) then Some(b.prot) else if Contains(l[k], x) then None else At(l, x)
    ensures forall x :: Contains(l[k], x) ==> At(l, x) == Some(l[k].prot)
    ensures forall x :: Begins(l', x) <==> x == b.start || (x != l[k].start && Begins(l, x))
  {
    ResizeAt(l, r, k, b, 0);
    ResizeBegins(l, r, k, b);
    forall x
      ensures At(l', x) == if Contains(b, x) then Some(b.prot) else if Contains(l[k], x) then None else At(l, x)
      ensures Contains(l[k], x) ==> At(l, x) == Some(l[k].prot)
    {
      ResizeAt(l, r, k, b, x);
    }
  }

  lemma ResizeBegins(l: seq<Area>, r: Range, k: nat, b: Area)
    requires WellFormed(l, r) && k < |l|
    ensures forall x :: Begins(l[k := b], x) <==> x == b.start || (x != l[k].start && Begins(l, x))
  {
    var l' := l[k := b];
    assert l'[k].start == b.start;
    forall i | 0 <= i < |l| && i != k ensures l[i].start != l[k].start && l'[i] == l[i] {
      Ordered(l, r, i, k);
    }
    forall x | Begins(l, x) && x != l[k].start ensures Begins(l', x) {
      var i :| 0 <= i < |l| && l[i].start == x;
      assert l'[i].start == x;
    }
    forall x | Begins(l', x) && x != b.start ensures Begins(l, x) && x != l[k].start {
      var i :| 0 <= i < |l'| && l'[i].start == x;
      assert l[i].start == x;
    }
  }

  /** An area fills its own window. */
  lemma Alone(l: seq<Area>, r: Range, k: nat)
    requires WellFormed(l, r) && k < |l|
    ensures Good(l[k], r) && Window(l, k, k + 1, l[k].start, l[k].end)
  {
    Ordered(l, r, k, k);
    if k > 0 {
      Ordered(l, r, k - 1, k);
    }
    if k + 1 < |l| {
      Ordered(l, r, k, k + 1);
    }
  }

  lemma BeginsOne(a: Area)
    ensures forall x :: Begins([a], x) <==> x == a.start
  {
    assert [a][0] == a;
  }

  lemma BeginsPair(a: Area, b: Area)
    ensures forall x :: Begins([a, b], x) <==> x == a.start || x == b.start
  {
    assert [a, b][0] == a && [a, b][1] == b;
  }

  /** The starts in the stretch of areas i up to j are theirs. */
  lemma BeginsWithin(l: seq<Area>, r: Range, i: nat, j: nat)
    requires WellFormed(l, r) && i < j <= |l|
    ensures forall x :: l[i].start <= x < l[j - 1].end && Begins(l, x) ==> exists n :: i <= n < j && l[n].start == x
  {
    forall x | l[i].start <= x < l[j - 1].end && Begins(l, x) ensures exists n :: i <= n < j && l[n].start == x {
      var n :| 0 <= n < |l| && l[n].start == x;
      Ordered(l, r, n, i);
      Ordered(l, r, n, j - 1);
    }
  }

  // ----- view and seams say everything

  /** Where the view changes to a mapped address, an area starts. */
  lemma EdgeBegins(l: seq<Area>, r: Range, x: int)
    requires WellFormed(l, r) && At(l, x).Some? && At(l, x - 1) != At(l, x)
    ensures Begins(l, x)
  {
    var i := AtWitness(l, x);
    Ordered(l, r, i, i);
    AtIndex(l, i, x);
    if l[i].start < x {
      AtIndex(l, i, x - 1);
    }
  }

  /** What an area's start says about the view. */
  lemma BeginsMapped(l: seq<Area>, r: Range, k: nat)
    requires WellFormed(l, r) && k < |l|
    ensures At(l, l[k].start) == Some(l[k].prot) && At(l, l[k].end - 1) == Some(l[k].prot)
    ensures k == 0 || l[k - 1].end < l[k].start ==> At(l, l[k].start - 1) == None
    ensures k > 0 && l[k - 1].end == l[k].start ==> At(l, l[k].start - 1) == Some(l[k - 1].prot)
  {
    Ordered(l, r, k, k);
    AtIndex(l, k, l[k].start);
    AtIndex(l, k, l[k].end - 1);
    if k > 0 && l[k - 1].end == l[k].start {
      Ordered(l, r, k - 1, k);
      AtIndex(l, k - 1, l[k].start - 1);
    } else {
      forall i | 0 <= i < |l| ensures !Contains(l[i], l[k].start - 1) {
        Ordered(l, r, i, k);
        if k > 0 {
          Ordered(l, r, i, k - 1);
        }
      }
      AtNowhere(l, l[k].start - 1);
    }
  }

  /** The seams of a list, by its areas. */
  lemma SeamAt(l: seq<Area>, r: Range, k: nat)
    requires WellFormed(l, r) && k < |l|
    ensures Seam(l, l[k].start) <==> k > 0 && l[k - 1].end == l[k].start && l[k - 1].prot == l[k].prot
  {
    BeginsMapped(l, r, k);
  }

  /** Two lists with the same view and the same seams are the same list. */
  lemma {:induction false} SameList(l: seq<Area>, l': seq<Area>, r: Range)
    requires WellFormed(l, r) && WellFormed(l', r)
    requires forall x :: At(l', x) == At(l, x)
    requires forall x :: Seam(l', x) <==> Seam(l, x)
    ensures l' == l
  {
    forall x ensures Begins(l', x) <==> Begins(l, x) {
      if Begins(l, x) && !Seam(l, x) {
        var k :| 0 <= k < |l| && l[k].start == x;
        BeginsMapped(l, r, k);
        EdgeBegins(l', r, x);
      }
      if Begins(l', x) && !Seam(l', x) {
        var k :| 0 <= k < |l'| && l'[k].start == x;
        BeginsMapped(l', r, k);
        EdgeBegins(l, r, x);
      }
    }
    SameStarts(l, l', r);
  }

  lemma {:induction false} SameStarts(l: seq<Area>, l': seq<Area>, r: Range)
    requires WellFormed(l, r) && WellFormed(l', r)
    requires forall x :: At(l', x) == At(l, x)
    requires forall x :: Begins(l', x) <==> Begins(l, x)
    ensures l' == l
  {
    if l == [] || l' == [] {
      if l != [] {
        HeadBegins(l);
      } else if l' != [] {
        HeadBegins(l');
      }
    } else {
      HeadBegins(l);
      HeadBegins(l');
      assert l[0].start == l'[0].start by {
        FirstStarts(l, r, l'[0].start);
        FirstStarts(l', r, l[0].start);
      }
      BeginsMapped(l, r, 0);
      BeginsMapped(l', r, 0);
      NotLonger(l, l', r);
      NotLonger(l', l, r);
      TailStarts(l, r);
      TailStarts(l', r);
      SameStarts(l[1..], l'[1..], r);
      assert l == [l[0]] + l[1..] && l' == [l'[0]] + l'[1..];
    }
  }

  lemma HeadBegins(l: seq<Area>)
    requires l != []
    ensures Begins(l, l[0].start)
  {
  }

  lemma FirstStarts(l: seq<Area>, r: Range, x: int)
    requires WellFormed(l, r) && Begins(l, x)
    ensures l[0].start <= x
  {
    var k :| 0 <= k < |l| && l[k].start == x;
    Ordered(l, r, 0, k);
  }

  lemma NotLonger(l: seq<Area>, l': seq<Area>, r: Range)
    requires WellFormed(l, r) && WellFormed(l', r) && l != [] && l' != [] && l[0].start == l'[0].start
    requires forall x :: At(l', x) == At(l, x)
    requires forall x :: Begins(l', x) <==> Begins(l, x)
    ensures l'[0].end <= l[0].end
  {
    Ordered(l, r, 0, 0);
    var x := l[0].end;
    if x < l'[0].end {
      AtIndex(l', 0, x);
      var i := AtWitness(l, x);
      Ordered(l, r, 0, i);
      NoStartInside(l', r, x);
    }
  }

  lemma NoStartInside(l: seq<Area>, r: Range, x: int)
    requires WellFormed(l, r) && l != [] && l[0].start < x < l[0].end
    ensures !Begins(l, x)
  {
    forall k | 0 <= k < |l| ensures l[k].start != x {
      Ordered(l, r, 0, k);
    }
  }

  lemma TailStarts(l: seq<Area>, r: Range)
    requires WellFormed(l, r) && l != []
    ensures WellFormed(l[1..], r)
    ensures forall x :: At(l[1..], x) == if Contains(l[0], x) then None else At(l, x)
    ensures forall x :: Begins(l[1..], x) <==> x != l[0].start && Begins(l, x)
  {
    assert WellFormed(l[1..], r);
    forall x ensures At(l[1..], x) == if Contains(l[0], x) then None else At(l, x) {
      if Contains(l[0], x) {
        forall i | 0 <= i < |l[1..]| ensures !Contains(l[1..][i], x) {
          Ordered(l, r, 0, i + 1);
        }
        AtNowhere(l[1..], x);
      }
    }
    forall x ensures Begins(l[1..], x) <==> x != l[0].start && Begins(l, x) {
      if k :| 0 <= k < |l| && l[k].start == x {
        assert k > 0 ==> l[1..][k - 1].start == x;
      }
      if k :| 0 <= k < |l[1..]| && l[1..][k].start == x {
        assert l[k + 1].start == x;
        Ordered(l, r, 0, k + 1);
      }
    }
  }

  /** The starts of a list, of which there are as many as areas. */
  function StartSet(l: seq<Area>): set<int> {
    set k | 0 <= k < |l| :: l[k].start
  }

  lemma {:induction false} StartCount(l: seq<Area>, r: Range)
    requires WellFormed(l, r)
    ensures |StartSet(l)| == |l|
  {
    if l != [] {
      var front, last := l[..|l| - 1], l[|l| - 1];
      StartCount(front, r);
      assert StartSet(l) == StartSet(front) + {last.start};
      forall k | 0 <= k < |front| ensures front[k].start != last.start {
        Ordered(l, r, k, |l| - 1);
      }
    }
  }

  lemma MoreStarts(l: seq<Area>, l': seq<Area>)
    requires forall k :: 0 <= k < |l| ==> Begins(l', l[k].start)
    ensures StartSet(l) <= StartSet(l')
  {
    forall k | 0 <= k < |l| ensures l[k].start in StartSet(l') {
      var j :| 0 <= j < |l'| && l'[j].start == l[k].start;
    }
  }

  lemma Subset(a: set<int>, b: set<int>)
    requires a <= b
    ensures |a| <= |b|
  {
    assert a + (b - a) == b;
  }

  /** A list without seams has the fewest areas of all lists with its view. */
  lemma Fewest(l: seq<Area>, l': seq<Area>, r: Range)
    requires WellFormed(l, r) && WellFormed(l', r)
    requires forall x :: At(l', x) == At(l, x)
    requires forall x :: !Seam(l, x)
    ensures |l| <= |l'|
  {
    forall k | 0 <= k < |l| ensures Begins(l', l[k].start) {
      assert Begins(l, l[k].start) && !Seam(l, l[k].start);
      BeginsMapped(l, r, k);
      EdgeBegins(l', r, l[k].start);
    }
    MoreStarts(l, l');
    Subset(StartSet(l), StartSet(l'));
    StartCount(l, r);
    StartCount(l', r);
  }
}
