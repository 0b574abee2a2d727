/** The invariant of the hash table, kept by every step of every thread. */
module HashInvariant {
  import opened Options
  import opened HashSpec
  import opened HashTable
  import opened Words
  import opened HashProbe
  import opened HashSteps
  import opened HashGlobal

  /** A step of thread t, described by the slot p it may write and the job it goes on to. */
  ghost predicate Moved(c: Config, s: Table, t: nat, s': Table, done: bool, i: nat, w: Work, p: nat, job': Job) {
    && t < |s.jobs| && s.jobs[t] == Job(i, w) && i < |c.ops|
    && p == Site(w) < |s.slots| && |s'.slots| == |s.slots| && s'.slots == s.slots[p := s'.slots[p]]
    && Changes(s.slots[p], s'.slots[p], p, t, c.ops[i], w, job')
    && s'.jobs == s.jobs[t := job'] && done == (job' == Idle) && (job'.Job? ==> job'.i == i)
    && s'.am == (if done then Apply(s.am, c.ops[i]) else s.am)
    && s'.minted == (if Mints(c.ops[i], w) then s.minted + {i} else s.minted)
    && s'.word == (if w.Count? then AddWord(s.word, w.delta) else s.word)
    && (if done then !(w.Ins? || w.Pur?)
        else !w.Count?
             && Wrote(job'.w) == (Wrote(w) || (w.Ins? && w.n == 2))
             && Minted(c.ops[i], job'.w) == (Minted(c.ops[i], w) || Mints(c.ops[i], w))
             && ToSubtract(job') == (ToSubtract(s.jobs[t]) || (w.Pur? && w.n == 1)))
  }

  lemma AppliedMoved(c: Config, s: Table, t: nat, s': Table, res: Option<Result>, i: nat, w: Work, next: Next)
    requires t < |s.jobs| && s.jobs[t] == Job(i, w) && i < |c.ops| && 0 < |s.slots| && InBounds(w, |s.slots|)
    requires Shaped(s.slots, s.word, t, c.ops[i], w, next) && Applied(c, s, t, s', res, i, w, next)
    ensures Moved(c, s, t, s', res.Some?, i, w, Site(w), s'.jobs[t])
  {
  }

  lemma StepMoved(c: Config, s: Table, t: nat, s': Table, res: Option<Result>)
      returns (i: nat, w: Work, p: nat, job': Job)
    requires Usable(c) && |s.slots| == c.size && Locks(s) && Step(c, s, t, s', res) && JobOk(c, s, t)
    ensures Moved(c, s, t, s', res.Some?, i, w, p, job')
  {
    i, w := s.jobs[t].i, s.jobs[t].w;
    p, job' := Site(w), s'.jobs[t];
    assert Holding(s.jobs[t]) == Holding(Job(0, w)) && (Holding(s.jobs[t]).Some? ==> Holding(s.jobs[t]).value == p);
    WorkShaped(c, s.slots, s.word, s.am, t, c.ops[i], w);
    AppliedMoved(c, s, t, s', res, i, w, WorkNext(c, s.slots, s.word, t, c.ops[i], w));
  }

  lemma LocksKeep(c: Config, s: Table, t: nat, s': Table, done: bool, i: nat, w: Work, p: nat, job': Job)
    requires Moved(c, s, t, s', done, i, w, p, job') && Locks(s)
    ensures Locks(s')
  {
    forall u | 0 <= u < |s'.jobs| && Holding(s'.jobs[u]).Some?
      ensures Holding(s'.jobs[u]).value < |s'.slots| && s'.slots[Holding(s'.jobs[u]).value].owner == Some(u)
    {
      assert u != t ==> s'.jobs[u] == s.jobs[u];
    }
    forall q | 0 <= q < |s'.slots| && s'.slots[q].owner.Some?
      ensures s'.slots[q].owner.value < |s'.jobs| && Holding(s'.jobs[s'.slots[q].owner.value]) == Some(q)
    {
      assert q != p ==> s'.slots[q] == s.slots[q];
    }
  }

  lemma OpeningsKeep(c: Config, s: Table, t: nat, s': Table, done: bool, i: nat, w: Work, p: nat, job': Job)
    requires Moved(c, s, t, s', done, i, w, p, job') && Locks(s) && Openings(s)
    ensures Openings(s')
  {
    forall q | 0 <= q < |s'.slots| && s'.slots[q].opening
      ensures s'.slots[q].owner.Some? && s'.slots[q].owner.value < |s'.jobs|
          && Opens(s'.jobs[s'.slots[q].owner.value], q)
    {
      assert Holding(s.jobs[t]) == Holding(Job(0, w));
      assert q != p ==> s'.slots[q] == s.slots[q];
    }
  }

  /** A slot is unlocked with its contents whole. */
  lemma BlanksKeep(c: Config, s: Table, t: nat, s': Table, done: bool, i: nat, w: Work, p: nat, job': Job)
    requires Moved(c, s, t, s', done, i, w, p, job') && Blanks(s.slots) && Locks(s)
    requires Unlocks(s.slots[p], s'.slots[p]) ==> Whole(s.slots[p])
    ensures Blanks(s'.slots)
  {
    assert Holding(s.jobs[t]) == Holding(Job(0, w));
    forall q | 0 <= q < |s'.slots| && s'.slots[q].owner == None ensures Whole(s'.slots[q]) {
      assert q != p ==> s'.slots[q] == s.slots[q];
    }
  }

  predicate Unlocks(a: Slot, b: Slot) {
    a.owner.Some? && b.owner == None
  }

  /** What the thread knows when it unlocks the slot. */
  lemma UnlocksWhole(c: Config, slots: seq<Slot>, word: int, am: map<nat, Entry>, t: nat, i: nat, w: Work)
    requires i < |c.ops| && c.ops[i].key != 0 && 0 < |slots| && InBounds(w, |slots|)
    requires Knows(slots, am, c.ops[i], c.home(c.ops[i].key), w)
    ensures Site(w) < |slots|
    ensures var next := WorkNext(c, slots, word, t, c.ops[i], w);
            next.Blocked? || |next.slots| != |slots| || Whole(slots[Site(w)])
            || !Unlocks(slots[Site(w)], next.slots[Site(w)])
  {
  }

  lemma UniqueKeep(c: Config, s: Table, t: nat, s': Table, done: bool, i: nat, w: Work, p: nat, job': Job)
    requires Moved(c, s, t, s', done, i, w, p, job') && Unique(s.slots) && JobOk(c, s, t)
    ensures Unique(s'.slots)
  {
  }

  lemma ChainsKeep(c: Config, s: Table, t: nat, s': Table, done: bool, i: nat, w: Work, p: nat, job': Job)
    requires Moved(c, s, t, s', done, i, w, p, job') && Chains(c, s.slots) && JobOk(c, s, t)
    ensures Chains(c, s'.slots)
  {
    forall q | 0 <= q < |s'.slots| && s'.slots[q].key != 0
      ensures ChainTo(s'.slots, c.home(s'.slots[q].key), q)
    {
      ChainStable(s.slots, p, s'.slots[p], c.ops[i].key, c.home(s'.slots[q].key), q);
    }
  }

  lemma TakenSlotsStep(slots: seq<Slot>, p: nat, b: Slot)
    requires p < |slots| && (NonVirgin(slots[p]) ==> NonVirgin(b))
    ensures |TakenSlots(slots[p := b])| == |TakenSlots(slots)| + if NonVirgin(b) == NonVirgin(slots[p]) then 0 else 1
  {
    var a := TakenSlots(slots);
    assert TakenSlots(slots[p := b]) == if NonVirgin(b) then a + {p} else a;
    assert NonVirgin(slots[p]) ==> a + {p} == a;
  }

  lemma UsedSlotsStep(slots: seq<Slot>, p: nat, b: Slot)
    requires p < |slots| && (WasUsed(slots[p]) ==> WasUsed(b))
    ensures |UsedSlots(slots[p := b])| == |UsedSlots(slots)| + if WasUsed(b) == WasUsed(slots[p]) then 0 else 1
  {
    var a := UsedSlots(slots);
    assert UsedSlots(slots[p := b]) == if WasUsed(b) then a + {p} else a;
    assert WasUsed(slots[p]) ==> a + {p} == a;
  }

  lemma LiveSlotsStep(slots: seq<Slot>, p: nat, b: Slot)
    requires p < |slots|
    ensures |LiveSlots(slots[p := b])|
         == |LiveSlots(slots)| + (if b.key != 0 then 1 else 0) - (if slots[p].key != 0 then 1 else 0)
  {
    var a := LiveSlots(slots);
    assert LiveSlots(slots[p := b]) == if b.key != 0 then a + {p} else a - {p};
    assert slots[p].key != 0 ==> a + {p} == a;
    assert slots[p].key == 0 ==> a - {p} == a;
  }

  lemma FrugalKeep(c: Config, s: Table, t: nat, s': Table, done: bool, i: nat, w: Work, p: nat, job': Job)
    requires Moved(c, s, t, s', done, i, w, p, job') && Frugal(c, s) && JobOk(c, s, t)
    ensures Frugal(c, s')
  {
    TakenSlotsStep(s.slots, p, s'.slots[p]);
    assert i in s.minted <==> Minted(c.ops[i], w);
    if Mints(c.ops[i], w) {
      assert i in FreshPuts(c.ops);
      assert Minted(c.ops[i], w) ==> s'.minted == s.minted;
    }
  }

  lemma ExclusiveKeep(c: Config, s: Table, t: nat, s': Table, done: bool, i: nat, w: Work, p: nat, job': Job)
    requires Moved(c, s, t, s', done, i, w, p, job') && Exclusive(c, s)
    ensures Exclusive(c, s')
  {
  }

  /** Keys that nobody works on, and the key of a call that returns. */
  lemma SettledKeep(c: Config, s: Table, t: nat, s': Table, done: bool, i: nat, w: Work, p: nat, job': Job)
    requires Moved(c, s, t, s', done, i, w, p, job') && Settled(c, s)
    requires done ==> InTable(s'.slots, s'.am, c.ops[i].key)
    ensures Settled(c, s')
  {
    forall key | key != 0 && !Active(c, s', key) ensures InTable(s'.slots, s'.am, key) {
      if key != c.ops[i].key {
        assert !Active(c, s, key) by {
          forall u | 0 <= u < |s.jobs| && s.jobs[u].Job? && s.jobs[u].i < |c.ops|
            ensures c.ops[s.jobs[u].i].key != key
          {
            assert u != t ==> s'.jobs[u] == s.jobs[u];
          }
        }
        ApplyOther(s.am, c.ops[i], key);
        InTableStable(s.slots, p, s'.slots[p], s.am, s'.am, c.ops[i].key, key);
      } else {
        assert s'.jobs[t] == job';
      }
    }
  }

  /** The other threads still know what they have to. */
  lemma OtherKeeps(c: Config, s: Table, t: nat, s': Table, done: bool, i: nat, w: Work, p: nat, job': Job, u: nat)
    requires Moved(c, s, t, s', done, i, w, p, job') && Usable(c) && Locks(s) && Exclusive(c, s)
    requires u < |s.jobs| && u != t && JobOk(c, s, u) && JobOk(c, s, t)
    ensures JobOk(c, s', u)
  {
    match s.jobs[u]
    case Idle =>
    case Job(j, v) =>
      var key := c.ops[i].key;
      assert c.ops[j].key != key;
      ApplyOther(s.am, c.ops[i], c.ops[j].key);
      assert Holding(Job(0, w)) == Holding(s.jobs[t]) && Holding(s.jobs[u]) == Holding(Job(j, v));
      KnowsStable(s.slots, p, s'.slots[p], s.am, s'.am, key, c.ops[j], c.home(c.ops[j].key), v, j);
  }

  /** The thread itself. */
  lemma MineKeeps(c: Config, s: Table, t: nat, s': Table, res: Option<Result>, i: nat, w: Work, p: nat, job': Job,
                  next: Next)
    requires Moved(c, s, t, s', res.Some?, i, w, p, job') && JobOk(c, s, t)
    requires Applied(c, s, t, s', res, i, w, next) && Sound(c, s.slots, s.am, i, next)
    ensures JobOk(c, s', t)
    ensures res.Some? ==> res.value == Answer(SeqMap(c.ops, i), c.ops[i]) && InTable(s'.slots, s'.am, c.ops[i].key)
  {
    AnswerKey(s.am, SeqMap(c.ops, i), c.ops[i]);
  }

  // ----- the counter

  lemma AddingStep(jobs: seq<Job>, t: nat, job': Job)
    requires t < |jobs|
    ensures |Adding(jobs[t := job'])|
         == |Adding(jobs)| + (if ToAdd(job') then 1 else 0) - (if ToAdd(jobs[t]) then 1 else 0)
  {
    var a := Adding(jobs);
    assert Adding(jobs[t := job']) == if ToAdd(job') then a + {t} else a - {t};
    assert ToAdd(jobs[t]) ==> a + {t} == a;
    assert !ToAdd(jobs[t]) ==> a - {t} == a;
  }

  lemma SubtractingStep(jobs: seq<Job>, t: nat, job': Job)
    requires t < |jobs|
    ensures |Subtracting(jobs[t := job'])|
         == |Subtracting(jobs)| + (if ToSubtract(job') then 1 else 0) - (if ToSubtract(jobs[t]) then 1 else 0)
  {
    var a := Subtracting(jobs);
    assert Subtracting(jobs[t := job']) == if ToSubtract(job') then a + {t} else a - {t};
    assert ToSubtract(jobs[t]) ==> a + {t} == a;
    assert !ToSubtract(jobs[t]) ==> a - {t} == a;
  }

  lemma AddingSlot(c: Config, s: Table, t: nat) returns (e: nat)
    requires t < |s.jobs| && ToAdd(s.jobs[t]) && JobOk(c, s, t)
    ensures Slotted(c, s, t, e) && c.ops[s.jobs[t].i].key == s.slots[e].key
  {
    e := s.jobs[t].w.ent;
  }

  /** Different threads that have inserted have done so in different slots. */
  lemma {:induction false} AddingFits(c: Config, s: Table, ts: set<nat>) returns (live: set<nat>)
    requires Usable(c) && JobsOk(c, s) && Exclusive(c, s)
    requires ts <= Adding(s.jobs)
    ensures |live| == |ts| && live <= LiveSlots(s.slots)
    ensures forall p :: p in live ==> exists t :: t in ts && Slotted(c, s, t, p)
    decreases ts
  {
    live := {};
    if t :| t in ts {
      var rest := AddingFits(c, s, ts - {t});
      assert JobOk(c, s, t);
      var e := AddingSlot(c, s, t);
      assert e !in rest;
      live := rest + {e};
    }
  }

  /** Slot p holds the key of the operation of thread t. */
  ghost predicate Slotted(c: Config, s: Table, t: nat, p: nat) {
    && t < |s.jobs| && s.jobs[t].Job? && s.jobs[t].i < |c.ops|
    && p < |s.slots| && s.slots[p].key == c.ops[s.jobs[t].i].key
  }

  /** The count is never negative, and always below the table size. */
  lemma UsedBounds(c: Config, s: Table)
    requires Inv(c, s) && Usable(c)
    ensures |Subtracting(s.jobs)| <= Used(s) && Used(s) + |Adding(s.jobs)| < c.size
    ensures s.word / W32 == c.ptr && s.word % W32 == Used(s)
  {
    var live := AddingFits(c, s, Adding(s.jobs));
    SubsetSize(live, LiveSlots(s.slots));
    SubsetSize(UsedSlots(s.slots), TakenSlots(s.slots));
    SubsetSize(s.minted, FreshPuts(c.ops));
  }

  /** The 64-bit add on the 32-bit count neither carries nor borrows. */
  lemma AddInPlace(ptr: nat, used: int, delta: int)
    requires ptr < W32 && 0 <= used + delta < W32
    ensures AddWord(ptr * W32 + used, delta) == ptr * W32 + (used + delta)
  {
  }

  /** Only the add itself changes the difference that `used` stands for. */
  lemma UsedKeep(c: Config, s: Table, t: nat, s': Table, done: bool, i: nat, w: Work, p: nat, job': Job)
    requires Moved(c, s, t, s', done, i, w, p, job') && JobOk(c, s, t) && c.ops[i].key != 0
    ensures Used(s') == Used(s) + if w.Count? then w.delta else 0
    ensures |LiveSlots(s'.slots)| + |Subtracting(s'.jobs)| - |UsedSlots(s'.slots)|
         <= |LiveSlots(s.slots)| + |Subtracting(s.jobs)| - |UsedSlots(s.slots)|
  {
    UsedSlotsStep(s.slots, p, s'.slots[p]);
    LiveSlotsStep(s.slots, p, s'.slots[p]);
    AddingStep(s.jobs, t, job');
    SubtractingStep(s.jobs, t, job');
  }

  lemma CountedKeep(c: Config, s: Table, t: nat, s': Table, done: bool, i: nat, w: Work, p: nat, job': Job)
    requires Moved(c, s, t, s', done, i, w, p, job') && JobOk(c, s, t) && c.ops[i].key != 0
    requires Counted(c, s) && c.ptr < W32 && c.size <= MAX_SIZE
    requires |Subtracting(s.jobs)| <= Used(s) < c.size
    ensures Counted(c, s')
  {
    UsedKeep(c, s, t, s', done, i, w, p, job');
    if w.Count? {
      if w.delta != 1 {
        assert t in Subtracting(s.jobs);
      }
      AddInPlace(c.ptr, Used(s), w.delta);
    }
  }

  /** Every step of every thread keeps the invariant, and a call that returns has the
      result of the sequential run. */
  lemma StepKeeps(c: Config, s: Table, t: nat, s': Table, res: Option<Result>)
    requires Usable(c) && Inv(c, s) && Step(c, s, t, s', res)
    ensures Inv(c, s')
    ensures res.Some? ==> res.value == Answer(SeqMap(c.ops, s.jobs[t].i), c.ops[s.jobs[t].i])
  {
    assert JobOk(c, s, t);
    var i, w, p, job' := StepMoved(c, s, t, s', res);
    StepMineSound(c, s, t, s', res, i, w, p, job');
    UsedBounds(c, s);
    LocksKeep(c, s, t, s', res.Some?, i, w, p, job');
    OpeningsKeep(c, s, t, s', res.Some?, i, w, p, job');
    UnlocksWhole(c, s.slots, s.word, s.am, t, i, w);
    BlanksKeep(c, s, t, s', res.Some?, i, w, p, job');
    UniqueKeep(c, s, t, s', res.Some?, i, w, p, job');
    ChainsKeep(c, s, t, s', res.Some?, i, w, p, job');
    FrugalKeep(c, s, t, s', res.Some?, i, w, p, job');
    ExclusiveKeep(c, s, t, s', res.Some?, i, w, p, job');
    SettledKeep(c, s, t, s', res.Some?, i, w, p, job');
    CountedKeep(c, s, t, s', res.Some?, i, w, p, job');
    forall u | 0 <= u < |s'.jobs| ensures JobOk(c, s', u) {
      if u != t {
        assert JobOk(c, s, u);
        OtherKeeps(c, s, t, s', res.Some?, i, w, p, job', u);
      }
    }
  }

  lemma StepMineSound(c: Config, s: Table, t: nat, s': Table, res: Option<Result>, i: nat, w: Work, p: nat, job': Job)
    requires Usable(c) && Inv(c, s) && Step(c, s, t, s', res) && Moved(c, s, t, s', res.Some?, i, w, p, job')
    ensures JobOk(c, s, t) && JobOk(c, s', t)
    ensures res.Some? ==> res.value == Answer(SeqMap(c.ops, i), c.ops[i]) && InTable(s'.slots, s'.am, c.ops[i].key)
  {
    var virgin := NeverFull(c, s);
    assert JobOk(c, s, t);
    UsedBounds(c, s);
    WorkSound(c, s.slots, s.word, s.am, t, i, w, virgin);
    MineKeeps(c, s, t, s', res, i, w, p, job', WorkNext(c, s.slots, s.word, t, c.ops[i], w));
  }

  // ----- entering a function, and the initial state

  lemma EnterJobs(c: Config, s: Table, t: nat, i: nat, s': Table)
    requires JobsOk(c, s) && Enter(c, s, t, i, s') && |s.slots| == c.size && c.home(c.ops[i].key) < c.size
    requires InTable(s.slots, s.am, c.ops[i].key) && i !in s.minted
    requires Lookup(s.am, c.ops[i].key) == Lookup(SeqMap(c.ops, i), c.ops[i].key)
    ensures JobsOk(c, s')
  {
    forall u | 0 <= u < |s'.jobs| ensures JobOk(c, s', u) {
      assert JobOk(c, s, u);
      assert u != t ==> s'.jobs[u] == s.jobs[u];
    }
  }

  lemma EnterSettled(c: Config, s: Table, t: nat, i: nat, s': Table)
    requires Settled(c, s) && Enter(c, s, t, i, s')
    ensures Settled(c, s')
  {
    forall k | k != 0 && !Active(c, s', k) ensures InTable(s'.slots, s'.am, k) {
      forall u | 0 <= u < |s.jobs| && s.jobs[u].Job? && s.jobs[u].i < |c.ops| ensures c.ops[s.jobs[u].i].key != k {
        assert s'.jobs[u] == s.jobs[u];
      }
    }
  }

  /** A thread may start an operation on a key that nobody works on, if the finished
      operations have given the key the value it has in the sequential run. */
  lemma EnterKeeps(c: Config, s: Table, t: nat, i: nat, s': Table)
    requires Usable(c) && Inv(c, s) && Enter(c, s, t, i, s')
    requires !Active(c, s, c.ops[i].key) && i !in s.minted
    requires Lookup(s.am, c.ops[i].key) == Lookup(SeqMap(c.ops, i), c.ops[i].key)
    ensures Inv(c, s')
  {
    EnterJobs(c, s, t, i, s');
    EnterSettled(c, s, t, i, s');
    EnterLocks(c, s, t, i, s');
    EnterExclusive(c, s, t, i, s');
    EnterCounted(c, s, t, i, s');
  }

  /** It holds no lock, */
  lemma EnterLocks(c: Config, s: Table, t: nat, i: nat, s': Table)
    requires Enter(c, s, t, i, s') && Locks(s) && Openings(s)
    ensures Locks(s') && Openings(s')
  {
    forall u | 0 <= u < |s'.jobs| ensures Holding(s'.jobs[u]) == Holding(s.jobs[u]) {
    }
  }

  /** is the only one on its key, */
  lemma EnterExclusive(c: Config, s: Table, t: nat, i: nat, s': Table)
    requires Enter(c, s, t, i, s') && Exclusive(c, s) && !Active(c, s, c.ops[i].key)
    ensures Exclusive(c, s')
  {
    forall u | 0 <= u < |s'.jobs| && u != t ensures s'.jobs[u] == s.jobs[u] {
    }
  }

  /** and has nothing to count. */
  lemma EnterCounted(c: Config, s: Table, t: nat, i: nat, s': Table)
    requires Enter(c, s, t, i, s') && Counted(c, s)
    ensures Counted(c, s')
  {
    AddingStep(s.jobs, t, s'.jobs[t]);
    SubtractingStep(s.jobs, t, s'.jobs[t]);
  }

  lemma InitKeeps(c: Config, threads: nat)
    requires Usable(c)
    ensures Inv(c, Init(c, threads))
  {
    var s := Init(c, threads);
    assert TakenSlots(s.slots) == {} && UsedSlots(s.slots) == {} && LiveSlots(s.slots) == {};
    assert Adding(s.jobs) == {} && Subtracting(s.jobs) == {};
  }
}
