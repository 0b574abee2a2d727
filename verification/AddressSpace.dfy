/** The linked list of areas that mmap.c keeps in a process, and the pointer edits it
    makes: every change of a node field or of a link goes through a method here. */
module AddressSpace {
  import opened AreaList

  /** struct vm_area */
  class VmArea {
    var start: int
    var end: int
    var prot: int
    var next: VmArea?

    constructor (start: int, end: int, prot: int, next: VmArea?)
      ensures this.start == start && this.end == end && this.prot == prot && this.next == next
    {
      this.start, this.end, this.prot, this.next := start, end, prot, next;
    }
  }

  /** The part of struct exec_context that mmap.c uses. */
  class Space {
    const range: Range
    var head: VmArea?

    // The nodes of the list in order, and the values they hold
    ghost var nodes: seq<VmArea>
    ghost var areas: seq<Area>

    ghost predicate Holds(k: nat)
      requires k < |nodes| && k < |areas|
      reads this, nodes
    {
      var n := nodes[k];
      && n.start == areas[k].start
      && n.end == areas[k].end
      && n.prot == areas[k].prot
      && n.next == (if k + 1 < |nodes| then nodes[k + 1] else null)
    }

    /** The pointers form an acyclic list that holds exactly `areas`. */
    ghost predicate Linked()
      reads this, nodes
    {
      && |nodes| == |areas|
      && head == (if nodes == [] then null else nodes[0])
      && (forall k :: 0 <= k < |nodes| ==> Holds(k))
      && (forall i, j :: 0 <= i < j < |nodes| ==> nodes[i] != nodes[j])
    }

    ghost predicate Valid()
      reads this, nodes
    {
      Linked() && WellFormed(areas, range)
    }

    constructor (range: Range)
      ensures Valid() && this.range == range && areas == []
    {
      this.range := range;
      head := null;
      nodes, areas := [], [];
    }

    /** cur->vm_start = v */
    method SetStart(ghost k: nat, cur: VmArea, v: int)
      requires Linked() && k < |nodes| && nodes[k] == cur
      modifies this`areas, cur
      ensures Linked() && nodes == old(nodes)
      ensures areas == old(areas)[k := old(areas)[k].(start := v)]
    {
      cur.start := v;
      areas := areas[k := areas[k].(start := v)];
      assert forall i :: 0 <= i < |nodes| ==> old(Holds(i)) && (i != k ==> nodes[i] != cur);
      assert forall i :: 0 <= i < |nodes| ==> Holds(i);
    }

    /** cur->vm_end = v */
    method SetEnd(ghost k: nat, cur: VmArea, v: int)
      requires Linked() && k < |nodes| && nodes[k] == cur
      modifies this`areas, cur
      ensures Linked() && nodes == old(nodes)
      ensures areas == old(areas)[k := old(areas)[k].(end := v)]
    {
      cur.end := v;
      areas := areas[k := areas[k].(end := v)];
      assert forall i :: 0 <= i < |nodes| ==> old(Holds(i)) && (i != k ==> nodes[i] != cur);
      assert forall i :: 0 <= i < |nodes| ==> Holds(i);
    }

    /** cur->access_flags = v */
    method SetProt(ghost k: nat, cur: VmArea, v: int)
      requires Linked() && k < |nodes| && nodes[k] == cur
      modifies this`areas, cur
      ensures Linked() && nodes == old(nodes)
      ensures areas == old(areas)[k := old(areas)[k].(prot := v)]
    {
      cur.prot := v;
      areas := areas[k := areas[k].(prot := v)];
      assert forall i :: 0 <= i < |nodes| ==> old(Holds(i)) && (i != k ==> nodes[i] != cur);
      assert forall i :: 0 <= i < |nodes| ==> Holds(i);
    }

    /** A new area in front of the whole list. */
    method PushFront(start: int, end: int, prot: int)
      requires Linked()
      modifies this`head, this`nodes, this`areas
      ensures Linked() && |nodes| == |old(nodes)| + 1 && fresh(nodes[0]) && nodes[1..] == old(nodes)
      ensures areas == InsertAt(old(areas), 0, Area(start, end, prot))
    {
      var n := new VmArea(start, end, prot, head);
      head := n;
      nodes := [n] + nodes;
      areas := [Area(start, end, prot)] + areas;
      forall i | 1 <= i < |nodes| ensures Holds(i) {
        assert nodes[i] == old(nodes)[i - 1];
        assert old(Holds(i - 1));
      }
      assert areas == InsertAt(old(areas), 0, Area(start, end, prot));
    }

    /** A new area just behind prev. */
    method InsertAfter(ghost k: nat, prev: VmArea, start: int, end: int, prot: int) returns (n: VmArea)
      requires Linked() && k < |nodes| && nodes[k] == prev
      modifies this`nodes, this`areas, prev
      ensures Linked() && fresh(n) && nodes == old(nodes)[..k + 1] + [n] + old(nodes)[k + 1..]
      ensures areas == InsertAt(old(areas), k + 1, Area(start, end, prot))
    {
      n := new VmArea(start, end, prot, prev.next);
      prev.next := n;
      nodes := nodes[..k + 1] + [n] + nodes[k + 1..];
      areas := InsertAt(areas, k + 1, Area(start, end, prot));
      forall i | 0 <= i < |nodes| ensures Holds(i) {
        if i > k + 1 {
          assert nodes[i] == old(nodes)[i - 1] && areas[i] == old(areas)[i - 1];
          assert old(Holds(i - 1));
        } else if i <= k {
          assert nodes[i] == old(nodes)[i] && areas[i] == old(areas)[i];
          assert old(Holds(i)) && (i < k ==> nodes[i + 1] == old(nodes)[i + 1] && nodes[i] != prev);
        } else {
          assert old(Holds(k)) && (k + 2 < |nodes| ==> nodes[k + 2] == old(nodes)[k + 1]);
        }
      }
      forall i, j | 0 <= i < j < |nodes| ensures nodes[i] != nodes[j] {
        var a, b := if i <= k then i else i - 1, if j <= k then j else j - 1;
        if i != k + 1 && j != k + 1 {
          assert nodes[i] == old(nodes)[a] && nodes[j] == old(nodes)[b];
        }
      }
    }

    /** prev->vm_next = prev->vm_next->vm_next; the area that was behind prev is freed. */
    method UnlinkAfter(ghost k: nat, prev: VmArea)
      requires Linked() && k + 1 < |nodes| && nodes[k] == prev
      modifies this`nodes, this`areas, prev
      ensures Linked() && nodes == old(nodes)[..k + 1] + old(nodes)[k + 2..]
      ensures areas == RemoveAt(old(areas), k + 1)
    {
      assert Holds(k) && Holds(k + 1);
      prev.next := prev.next.next;
      nodes := nodes[..k + 1] + nodes[k + 2..];
      areas := RemoveAt(areas, k + 1);
      forall i | 0 <= i < |nodes| ensures Holds(i) {
        var a := if i <= k then i else i + 1;
        assert nodes[i] == old(nodes)[a] && areas[i] == old(areas)[a];
        assert old(Holds(a));
      }
      forall i, j | 0 <= i < j < |nodes| ensures nodes[i] != nodes[j] {
        var a, b := if i <= k then i else i + 1, if j <= k then j else j + 1;
        assert nodes[i] == old(nodes)[a] && nodes[j] == old(nodes)[b];
      }
    }

    /** The first area is freed. */
    method PopFront()
      requires Linked() && nodes != []
      modifies this`head, this`nodes, this`areas
      ensures Linked() && nodes == old(nodes)[1..]
      ensures areas == RemoveAt(old(areas), 0)
    {
      assert Holds(0);
      head := head.next;
      nodes := nodes[1..];
      areas := RemoveAt(areas, 0);
      forall i | 0 <= i < |nodes| ensures Holds(i) {
        assert nodes[i] == old(nodes)[i + 1] && areas[i] == old(areas)[i + 1];
        assert old(Holds(i + 1));
      }
    }

    /** The counting loop at the top of each call. */
    method CountAreas() returns (count: nat)
      requires Linked()
      ensures count == |areas|
    {
      var cur := head;
      count := 0;
      while cur != null
        invariant count <= |nodes|
        invariant cur == if count < |nodes| then nodes[count] else null
        decreases |nodes| - count
      {
        assert Holds(count);
        count := count + 1;
        cur := cur.next;
      }
    }

    /** The loop that skips the areas ending at or below addr.  k is the position of cur. */
    method Seek(addr: int) returns (prev: VmArea?, cur: VmArea?, ghost k: nat)
      requires Linked()
      ensures k <= |nodes|
      ensures cur == if k < |nodes| then nodes[k] else null
      ensures prev == if k > 0 then nodes[k - 1] else null
      ensures forall i :: 0 <= i < k ==> areas[i].end <= addr
      ensures k < |nodes| ==> addr < areas[k].end
    {
      prev, cur, k := null, head, 0;
      while cur != null && addr >= cur.end
        invariant k <= |nodes|
        invariant cur == if k < |nodes| then nodes[k] else null
        invariant prev == if k > 0 then nodes[k - 1] else null
        invariant forall i :: 0 <= i < k ==> areas[i].end <= addr
        decreases |nodes| - k
      {
        assert Holds(k);
        prev := cur;
        k := k + 1;
        cur := cur.next;
      }
      assert k < |nodes| ==> Holds(k);
    }
  }
}
