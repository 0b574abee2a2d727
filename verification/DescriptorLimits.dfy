/** Calls on a table of any size that read past its end, and one that loses an object. */
module DescriptorLimits {
  import opened Options
  import opened Descriptors

  /** The descriptors of a process from 3 on that are in use are those below n. */
  ghost predicate UsedTo(k: Kernel, pid: nat, n: nat)
    reads k`slots, k`tables
  {
    pid in k.tables && forall i :: 3 <= i < k.max ==> (Slot(pid, i) in k.slots <==> i < n)
  }

  /** One file more is opened. */
  method OpenNext(k: Kernel, pid: nat, n: nat)
    requires k.Valid() && UsedTo(k, pid, n) && 3 <= n < k.max
    modifies k`slots, k`held, k`tables, k`objs, k`fileObjects
    ensures k.Valid() && UsedTo(k, pid, n + 1)
    ensures forall key :: key in old(k.slots) ==> key in k.slots
    ensures forall f :: f in k.objs ==> f in old(k.objs) || fresh(f)
  {
    ghost var was := k.slots;
    var r, f := k.OpenRegular(pid, O_READ);
    assert Slot(pid, n) !in was;
    assert r == Fd(n);
    OneMore(was, k.slots, k.max, pid, n, f);
    assert Slot(pid, n) in k.slots;
  }

  lemma OneMore(was: map<Slot, File>, now: map<Slot, File>, max: nat, pid: nat, n: nat, f: File)
    requires forall i :: 3 <= i < max ==> (Slot(pid, i) in was <==> i < n)
    requires now == was[Slot(pid, n) := f]
    ensures forall i :: 3 <= i < max ==> (Slot(pid, i) in now <==> i < n + 1)
    ensures forall key :: key in was ==> key in now
  {
  }

  method OpenMany(k: Kernel, pid: nat, n: nat)
    requires k.Valid() && UsedTo(k, pid, 3) && 3 <= n <= k.max
    modifies k`slots, k`held, k`tables, k`objs, k`fileObjects
    ensures k.Valid() && UsedTo(k, pid, n)
    ensures forall key :: key in old(k.slots) ==> key in k.slots
    ensures forall f :: f in k.objs ==> f in old(k.objs) || fresh(f)
  {
    for i := 3 to n
      invariant k.Valid() && UsedTo(k, pid, i)
      invariant forall key :: key in old(k.slots) ==> key in k.slots
      invariant forall f :: f in k.objs ==> f in old(k.objs) || fresh(f)
    {
      OpenNext(k, pid, i);
    }
  }

  /** A new process in a new system. */
  method Start(max: nat) returns (k: Kernel)
    requires max > 3
    ensures fresh(k) && k.Valid() && k.max == max && k.objs == {} && k.slots == map[] && UsedTo(k, 0, 3)
  {
    k := new Kernel(max);
    k.Spawn(0);
  }

  /** All descriptors but the last one are in use, and a pipe is made: create_pipe reads
      past the table, whatever its size. */
  method PipeOverruns(max: nat) returns (res: Outcome)
    requires max > 3
    ensures res == Overrun
  {
    var k := Start(max);
    OpenMany(k, 0, max - 1);
    ghost var made;
    res, made := k.CreatePipe(Some(0));
  }

  /** Standard input is open and the table is full when it is opened again. */
  method StreamOverruns(max: nat) returns (res: Outcome)
    requires max > 3
    ensures res == Overrun
  {
    var k := Start(max);
    ghost var f;
    res, f := k.OpenStandardIO(0, 0, Stdin);
    OpenMany(k, 0, max);
    res, f := k.OpenStandardIO(0, 0, Stdin);
  }

  /** A file is opened when the table is full: the object is counted as alive, and no
      descriptor names it. */
  method OpenLoses(max: nat) returns (k: Kernel, r: Outcome, ghost f: File)
    requires max > 3
    ensures fresh(k) && k.Valid() && r == Error(EOTHERS)
    ensures f in k.objs && f !in k.slots.Values
  {
    k := Start(max);
    OpenMany(k, 0, max);
    r, f := k.OpenRegular(0, O_READ);
  }
}
