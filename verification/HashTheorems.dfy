/** What every run of the parallel hash program satisfies. */
module HashTheorems {
  import opened Options
  import opened HashSpec
  import opened Words
  import opened HashSystem
  import G = Gate
  import T = HashTable
  import I = HashInvariant

  // ----- the program's own configuration

  /** The table with hashfunc as its hash function. */
  function Program(ops: seq<Op>, size: nat, ptr: nat): T.Config
    requires size > 0
  {
    T.Config(ops, size, ptr, (k: nat) => T.HashFunc(k, size))
  }

  /** What the theorems below ask of an input and a table size. */
  lemma ProgramUsable(ops: seq<Op>, size: nat, ptr: nat)
    requires 0 < size <= 100000001 && ptr < W32
    ensures Usable(Program(ops, size, ptr))
       <==> && (forall i :: 0 <= i < |ops| ==> ops[i].key != 0)
            && (forall i, j :: 0 <= i < j < |ops| ==> ops[i].id < ops[j].id)
            && |FreshPuts(ops)| < size
  {
  }

  // ----- results

  /** In every run, after every step, each operation that has returned has the result it
      has when the stream is performed one operation at a time. */
  lemma Serializable(c: T.Config, threads: nat, ss: seq<Sys>)
    requires Usable(c) && threads <= G.THREADS && Run(c, threads, ss)
    ensures Last(ss).results.Keys == Last(ss).g.done
    ensures forall j :: j in Last(ss).results ==>
              j < |c.ops| && Last(ss).results[j] == Answer(SeqMap(c.ops, j), c.ops[j])
  {
    RunInv(c, threads, ss);
  }

  ghost predicate AllExited(s: Sys) {
    |s.g.phases| > 0 && forall t :: 0 <= t < |s.g.phases| ==> s.g.phases[t].Exited?
  }

  /** When all threads have exited, every operation has its sequential result, and the
      table holds exactly the map of the sequential run. */
  lemma FinalTable(c: T.Config, threads: nat, ss: seq<Sys>)
    requires Usable(c) && threads <= G.THREADS && Run(c, threads, ss) && AllExited(Last(ss))
    ensures Final(c, Last(ss))
  {
    RunInv(c, threads, ss);
    AllDone(c, Last(ss));
    FinalState(c, Last(ss));
  }

  /** All operations have their results, each key is in one slot, the table says about each
      key what the sequential map says, its last PUT's id included, and the slots without a
      key are as init_hashtable or a purge leaves them. */
  ghost predicate Final(c: T.Config, s: Sys) {
    && (forall j :: 0 <= j < |c.ops| ==> j in s.results && s.results[j] == Answer(SeqMap(c.ops, j), c.ops[j]))
    && T.Unique(s.tab.slots)
    && (forall key :: key != 0 ==> T.InTable(s.tab.slots, SeqMap(c.ops, |c.ops|), key))
    && (forall p :: 0 <= p < |s.tab.slots| ==> s.tab.slots[p].owner == None && T.Whole(s.tab.slots[p]))
  }

  lemma FinalState(c: T.Config, s: Sys)
    requires T.Unique(s.tab.slots) && T.Locks(s.tab) && T.Blanks(s.tab.slots) && T.Settled(c, s.tab) && Agree(s)
        && Faithful(c, s.g.done, s.tab.am, s.front, s.results)
    requires AllExited(s) && forall j :: 0 <= j < |c.ops| ==> j in s.g.done
    ensures Final(c, s)
  {
    NoneActive(c, s);
    FinalKeys(c, s.tab, s.g.done, s.front);
    NoneLocked(s);
  }

  lemma NoneLocked(s: Sys)
    requires T.Locks(s.tab) && Agree(s) && AllExited(s)
    ensures forall p :: 0 <= p < |s.tab.slots| ==> s.tab.slots[p].owner == None
  {
    assert forall t :: 0 <= t < |s.tab.jobs| ==> !s.g.phases[t].Run? && !s.tab.jobs[t].Job?;
  }

  lemma NoneActive(c: T.Config, s: Sys)
    requires Agree(s) && AllExited(s)
    ensures forall key :: !T.Active(c, s.tab, key)
  {
    assert forall t :: 0 <= t < |s.tab.jobs| ==> !s.g.phases[t].Run? && !s.tab.jobs[t].Job?;
  }

  lemma FinalKeys(c: T.Config, tab: T.Table, done: set<nat>, front: map<nat, nat>)
    requires T.Settled(c, tab) && forall key :: !T.Active(c, tab, key)
    requires Fronts(c, done, front) && Caught(c, tab.am, front) && forall j :: 0 <= j < |c.ops| ==> j in done
    ensures forall key :: key != 0 ==> T.InTable(tab.slots, SeqMap(c.ops, |c.ops|), key)
  {
    var final := SeqMap(c.ops, |c.ops|);
    forall key | key != 0 ensures T.InTable(tab.slots, final, key) {
      assert !T.Active(c, tab, key);
      FinalLookup(c, done, tab.am, front, key);
      SameInTable(tab.slots, tab.am, final, key);
    }
  }

  lemma AllDone(c: T.Config, s: Sys)
    requires G.Inv(c.ops, s.g) && AllExited(s)
    ensures forall j :: 0 <= j < |c.ops| ==> j in s.g.done
  {
    assert s.g.phases[0].Exited?;
    assert forall t :: 0 <= t < |s.g.phases| ==> !s.g.busy[t];
  }

  lemma FinalLookup(c: T.Config, done: set<nat>, am: map<nat, Entry>, front: map<nat, nat>, key: nat)
    requires Fronts(c, done, front) && Caught(c, am, front)
    requires forall j :: 0 <= j < |c.ops| ==> j in done
    ensures Lookup(am, key) == Lookup(SeqMap(c.ops, |c.ops|), key)
  {
    assert Front(front, key) <= |c.ops|;
    SeqMapKey(c.ops, Front(front, key), |c.ops|, key);
  }

  lemma SameInTable(slots: seq<T.Slot>, am: map<nat, Entry>, am': map<nat, Entry>, key: nat)
    requires T.InTable(slots, am, key) && Lookup(am, key) == Lookup(am', key)
    ensures T.InTable(slots, am', key)
  {
  }

  /** In no run are two threads inside the table with one key, and when a thread is inside,
      all earlier operations on its key have returned. */
  lemma OneKeyAtATime(c: T.Config, threads: nat, ss: seq<Sys>, t: nat)
    requires Usable(c) && threads <= G.THREADS && Run(c, threads, ss)
    requires t < |Last(ss).g.phases| && Last(ss).g.phases[t].Run?
    ensures Alone(c, Last(ss).g, t)
  {
    RunInv(c, threads, ss);
    var g := Last(ss).g;
    assert g.busy[t] && G.Clearance(c.ops, g, t);
    forall u | 0 <= u < |g.phases| && u != t && g.phases[u].Run?
      ensures g.mine[u] < |c.ops| && c.ops[g.mine[u]].key != c.ops[g.mine[t]].key
    {
      G.RunExclusive(c.ops, g, t, u);
    }
  }

  /** In every run a thread that waits waits for an earlier operation on its own key. */
  lemma WaitsForItsKey(c: T.Config, threads: nat, ss: seq<Sys>, t: nat)
    requires Usable(c) && threads <= G.THREADS && Run(c, threads, ss)
    requires t < |Last(ss).g.phases| && Last(ss).g.phases[t].Wait?
    ensures G.Behind(c.ops, Last(ss).g, t)
  {
    RunInv(c, threads, ss);
    G.WaitersBehind(c.ops, Last(ss).g, t);
  }

  ghost predicate Alone(c: T.Config, g: G.Gate, t: nat) {
    && |g.mine| == |g.phases| && t < |g.mine| && g.mine[t] < |c.ops|
    && (forall j :: 0 <= j < g.mine[t] && c.ops[j].key == c.ops[g.mine[t]].key ==> j in g.done)
    && (forall u :: 0 <= u < |g.phases| && u != t && g.phases[u].Run? ==>
          g.mine[u] < |c.ops| && c.ops[g.mine[u]].key != c.ops[g.mine[t]].key)
  }

  // ----- assertions and the counter

  /** No assertion of insert_update fails, in any reachable state. */
  lemma AssertionsHold(c: T.Config, threads: nat, ss: seq<Sys>, t: nat)
    requires Usable(c) && threads <= G.THREADS && Run(c, threads, ss) && t < |Last(ss).tab.jobs|
    ensures Last(ss).tab.jobs[t].Job? ==> !Last(ss).tab.jobs[t].w.Crash?
  {
    RunInv(c, threads, ss);
    assert T.JobOk(c, Last(ss).tab, t);
  }

  /** The high half of the word at &used, which is the table's address, never changes; the
      low half is the number of live slots, less the insertions and plus the purges that
      are still to be counted, and is below the table size. */
  lemma CounterConserved(c: T.Config, threads: nat, ss: seq<Sys>)
    requires Usable(c) && threads <= G.THREADS && Run(c, threads, ss)
    ensures Last(ss).tab.word / W32 == c.ptr
    ensures Last(ss).tab.word % W32 < c.size
    ensures Last(ss).tab.word % W32 + |T.Adding(Last(ss).tab.jobs)|
         == |T.LiveSlots(Last(ss).tab.slots)| + |T.Subtracting(Last(ss).tab.jobs)|
  {
    RunInv(c, threads, ss);
    I.UsedBounds(c, Last(ss).tab);
  }

  /** What dump_hash_table prints of a slot with a key. */
  datatype Line = Line(id: nat, key: nat, datalen: nat, data: nat)

  function Lines(table: seq<T.Slot>): seq<Line> {
    if table == [] then []
    else
      var e := table[|table| - 1];
      Lines(table[..|table| - 1]) + if e.key != 0 then [Line(e.id, e.key, e.datalen, e.data)] else []
  }

  /** dump_hash_table: a line for each slot with a key, and `used` less one for each, in 32
      bits. */
  method DumpHashTable(table: seq<T.Slot>, used: nat) returns (lused: nat, printed: seq<Line>)
    requires used < W32
    ensures lused == (used - |T.LiveSlots(table)|) % W32 && printed == Lines(table)
  {
    lused, printed := used, [];
    assert T.LiveSlots(table[..0]) == {};
    for ctr := 0 to |table|
      invariant lused == (used - |T.LiveSlots(table[..ctr])|) % W32
      invariant printed == Lines(table[..ctr])
    {
      OneMore(table, ctr);
      assert table[..ctr + 1][..ctr] == table[..ctr];
      if table[ctr].key != 0 {
        printed := printed + [Line(table[ctr].id, table[ctr].key, table[ctr].datalen, table[ctr].data)];
        lused := if lused == 0 then W32 - 1 else lused - 1;
      }
    }
    assert table[..|table|] == table;
  }

  /** The lines are those of the slots with a key, each key's once. */
  lemma {:induction false} LinesOf(table: seq<T.Slot>)
    requires T.Unique(table)
    ensures forall line :: line in Lines(table) ==>
              exists p :: 0 <= p < |table| && table[p].key != 0 && LineOf(table[p]) == line
    ensures forall p :: 0 <= p < |table| && table[p].key != 0 ==> LineOf(table[p]) in Lines(table)
    ensures forall i, j :: 0 <= i < j < |Lines(table)| ==> Lines(table)[i].key != Lines(table)[j].key
  {
    if table != [] {
      var front := table[..|table| - 1];
      LinesOf(front);
      forall i | 0 <= i < |Lines(front)| ensures Lines(front)[i].key != table[|table| - 1].key {
        assert Lines(front)[i] in Lines(front);
      }
    }
  }

  function LineOf(e: T.Slot): Line {
    Line(e.id, e.key, e.datalen, e.data)
  }

  lemma OneMore(table: seq<T.Slot>, n: nat)
    requires n < |table|
    ensures |T.LiveSlots(table[..n + 1])| == |T.LiveSlots(table[..n])| + if table[n].key != 0 then 1 else 0
  {
    if table[n].key != 0 {
      assert T.LiveSlots(table[..n + 1]) == T.LiveSlots(table[..n]) + {n};
    } else {
      assert T.LiveSlots(table[..n + 1]) == T.LiveSlots(table[..n]);
    }
  }

  /** When all threads have exited the count is the number of live slots. */
  lemma CountedAtRest(c: T.Config, threads: nat, ss: seq<Sys>)
    requires Usable(c) && threads <= G.THREADS && Run(c, threads, ss) && AllExited(Last(ss))
    ensures Last(ss).tab.word % W32 == |T.LiveSlots(Last(ss).tab.slots)|
  {
    CounterConserved(c, threads, ss);
    RunInv(c, threads, ss);
    NobodyInside(Last(ss));
  }

  /** The line of a key in the sequential map. */
  function MapLine(m: map<nat, Entry>, key: nat): Line
    requires key in m
  {
    Line(m[key].id % W32, key, m[key].value.datalen, m[key].value.data)
  }

  /** The lines are the map's, each key's once. */
  ghost predicate Prints(printed: seq<Line>, m: map<nat, Entry>) {
    && (forall line :: line in printed <==> line.key in m && line == MapLine(m, line.key))
    && (forall i, j :: 0 <= i < j < |printed| ==> printed[i].key != printed[j].key)
  }

  /** What is printed of a table that says what the map says: the map, each key once. */
  lemma LinesOfMap(table: seq<T.Slot>, m: map<nat, Entry>)
    requires T.Unique(table) && 0 !in m && forall key :: key != 0 ==> T.InTable(table, m, key)
    ensures Prints(Lines(table), m)
  {
    LinesOf(table);
    forall line | line in Lines(table) ensures line.key in m && line == MapLine(m, line.key) {
      var p :| 0 <= p < |table| && table[p].key != 0 && LineOf(table[p]) == line;
      assert T.InTable(table, m, line.key);
    }
    forall key | key in m ensures MapLine(m, key) in Lines(table) {
      assert T.InTable(table, m, key) && !T.Absent(table, key);
      var p :| 0 <= p < |table| && table[p].key == key;
      assert LineOf(table[p]) == MapLine(m, key);
    }
  }

  lemma {:induction false} NoZeroKey(ops: seq<Op>, n: nat)
    requires n <= |ops| && forall i :: 0 <= i < |ops| ==> ops[i].key != 0
    ensures 0 !in SeqMap(ops, n)
  {
    if n > 0 {
      NoZeroKey(ops, n - 1);
    }
  }

  /** What main does with the table when the threads have been joined: the lines are the
      sequential map, each key once, and the count is left with 0, as the assertion asks. */
  method DumpAtEnd(ghost c: T.Config, ghost threads: nat, ghost ss: seq<Sys>, table: seq<T.Slot>, used: nat)
      returns (lused: nat, printed: seq<Line>)
    requires Usable(c) && threads <= G.THREADS && Run(c, threads, ss) && AllExited(Last(ss))
    requires table == Last(ss).tab.slots && used == Last(ss).tab.word % W32
    ensures lused == 0 && Prints(printed, SeqMap(c.ops, |c.ops|))
  {
    CountedAtRest(c, threads, ss);
    EndLines(c, threads, ss);
    lused, printed := DumpHashTable(table, used);
  }

  lemma EndLines(c: T.Config, threads: nat, ss: seq<Sys>)
    requires Usable(c) && threads <= G.THREADS && Run(c, threads, ss) && AllExited(Last(ss))
    ensures Prints(Lines(Last(ss).tab.slots), SeqMap(c.ops, |c.ops|))
  {
    RunInv(c, threads, ss);
    AllDone(c, Last(ss));
    StateLines(c, Last(ss));
  }

  lemma StateLines(c: T.Config, s: Sys)
    requires T.Unique(s.tab.slots) && T.Settled(c, s.tab) && Agree(s) && AllExited(s)
    requires Faithful(c, s.g.done, s.tab.am, s.front, s.results)
    requires forall i :: 0 <= i < |c.ops| ==> c.ops[i].key != 0 && i in s.g.done
    ensures Prints(Lines(s.tab.slots), SeqMap(c.ops, |c.ops|))
  {
    NoneActive(c, s);
    FinalKeys(c, s.tab, s.g.done, s.front);
    NoZeroKey(c.ops, |c.ops|);
    LinesOfMap(s.tab.slots, SeqMap(c.ops, |c.ops|));
  }

  lemma NobodyInside(s: Sys)
    requires Agree(s) && AllExited(s)
    ensures T.Adding(s.tab.jobs) == {} && T.Subtracting(s.tab.jobs) == {}
  {
  }

  // ----- locks

  /** A step that changes more of a slot than its owner is made by the slot's owner: the
      tests a thread makes while it holds the lock see one state of the slot. */
  lemma OnlyHolderWrites(c: T.Config, s: T.Table, t: nat, s': T.Table, res: Option<Result>, q: nat)
    requires T.Usable(c) && T.Inv(c, s) && T.Step(c, s, t, s', res) && q < |s.slots|
    ensures |s'.slots| == |s.slots|
    ensures s'.slots[q].(owner := None) != s.slots[q].(owner := None) ==> s.slots[q].owner == Some(t)
  {
    assert T.JobOk(c, s, t);
    var i, w, p, job' := I.StepMoved(c, s, t, s', res);
    assert T.Holding(s.jobs[t]) == T.Holding(T.Job(0, w));
  }
}
