/** The shared table of Assignment4/parallel_hash.c: linear probing over slots with
    tombstones, per-slot locks for insertions and purges, and probes that take no lock.

    A state machine: each step is one thread's next access to shared memory.  Tests made
    while a thread holds the slot's lock are one step, since only the holder writes the
    slot (OnlyHolderWrites). */
module HashTable {
  import opened Options
  import opened HashSpec
  import opened Words

  /** The id that marks a deleted slot: (unsigned) -1. */
  const DELETED: nat := 0xFFFF_FFFF

  /** The largest table main.c accepts. */
  const MAX_SIZE: nat := 100000001

  /** hash_entry_t; owner is the thread that holds the slot's lock.  opening is history,
      which no step reads: an insertion has begun here and has not written its key yet. */
  datatype Slot = Slot(id: nat, datalen: nat, key: nat, data: nat, owner: Option<nat>, opening: bool)

  /** The input, the table size, the low half of the table's address, which lies right
      behind `used` in memory, and the hash function. */
  datatype Config = Config(ops: seq<Op>, size: nat, ptr: nat, home: nat -> nat)

  /** hashfunc */
  function HashFunc(key: nat, size: nat): (h: nat)
    requires size > 0
    ensures h < size
  {
    (key / W32 + key % W32) % size
  }

  /** The key's two 32-bit halves are added up. */
  lemma HomeOfHalves(hi: nat, lo: nat, size: nat)
    requires hi < W32 && lo < W32 && size > 0
    ensures HashFunc(hi * W32 + lo, size) == (hi + lo) % size
  {
    assert (hi * W32 + lo) / W32 == hi;
  }

  /** Where a thread is inside lookup, insert_update or purge_key. */
  datatype Work =
    // the probes of lookup and purge_key: entry->key, entry->id, entry->key again
    | Key1(ctr: nat) | Id(ctr: nat) | Key2(ctr: nat)
    // lookup: the test behind the loop, and the two copies
    | Hit(ctr: nat) | Len(ctr: nat) | Data(ctr: nat, len: nat)
    // insert_update: the assertion, then for each slot of the first pass lock and test
    | Guard | Take(ctr: nat) | Test(ctr: nat)
    // the second pass starts over with ctr but not with entry
    | Again(ctr: nat, ent: nat) | AgainTake(ctr: nat, ent: nat)
    // purge_key locks the slot its probe stopped at
    | DelTake(ent: nat)
    // with the lock: is the key still, or still not, here?
    | Choose(ent: nat)
    // n assignments made: of an update, an insertion, a purge
    | Upd(ent: nat, n: nat) | Ins(ent: nat, n: nat) | Pur(ent: nat, n: nat)
    // purge_key that found nothing, about to unlock
    | Miss(ent: nat)
    // about to add delta to `used`
    | Count(ent: nat, delta: int)
    // a failed assertion
    | Crash

  datatype Job = Idle | Job(i: nat, w: Work)

  /** word is the 64-bit word at &used.  The last two fields are history, which no step
      reads: the map as changed by the operations that have returned, and the PUTs that
      have written their key into an unused slot. */
  datatype Table = Table(slots: seq<Slot>, word: int, jobs: seq<Job>, am: map<nat, Entry>, minted: set<nat>)

  // ----- the code

  function Succ(ctr: nat, size: nat): (r: nat)
    requires ctr < size
    ensures r == if ctr + 1 == size then 0 else ctr + 1
  {
    (ctr + 1) % size
  }

  /** hashval - 1, in unsigned arithmetic. */
  function Stop(h: nat): nat {
    if h == 0 then W32 - 1 else h - 1
  }

  /** lock add of a 64-bit value on the word at &used. */
  function AddWord(word: int, delta: int): int {
    (word + delta) % W64
  }

  function Start(op: Op, h: nat): Work {
    if op.kind == Put then Guard else Key1(h)
  }

  /** What a step comes to: the lock is taken, the work goes on, or the call returns. */
  datatype Next = Blocked | Go(slots: seq<Slot>, word: int, w: Work) | Done(slots: seq<Slot>, word: int, res: Result)

  predicate InBounds(w: Work, size: nat) {
    match w
    case Key1(c) => c < size
    case Id(c) => c < size
    case Key2(c) => c < size
    case Hit(c) => c < size
    case Len(c) => c < size
    case Data(c, _) => c < size
    case Take(c) => c < size
    case Test(c) => c < size
    case Again(c, e) => c < size && e < size
    case AgainTake(c, e) => c < size && e < size
    case DelTake(e) => e < size
    case Choose(e) => e < size
    case Upd(e, n) => e < size && n <= 3
    case Ins(e, n) => e < size && n <= 4
    case Pur(e, n) => e < size && n <= 4
    case Miss(e) => e < size
    case Count(e, _) => e < size
    case Guard => true
    case Crash => true
  }

  function Probing(op: Op, ctr: nat): Work {
    if op.kind == Get then Hit(ctr) else DelTake(ctr)
  }

  /** lookup, and the probe of purge_key. */
  function ReadNext(slots: seq<Slot>, word: int, op: Op, h: nat, w: Work): Next
    requires InBounds(w, |slots|) && (w.Key1? || w.Id? || w.Key2? || w.Hit? || w.Len? || w.Data?)
  {
    match w
    case Key1(c) => Go(slots, word, if slots[c].key != 0 then Key2(c) else Id(c))
    case Id(c) => Go(slots, word, if slots[c].id == DELETED then Key2(c) else Probing(op, c))
    case Key2(c) =>
      Go(slots, word, if slots[c].key != op.key && c != Stop(h) then Key1(Succ(c, |slots|)) else Probing(op, c))
    case Hit(c) =>
      if slots[c].key == op.key then Go(slots, word, Len(c)) else Done(slots, word, Result(-1, None))
    case Len(c) => Go(slots, word, Data(c, slots[c].datalen))
    case Data(c, len) => Done(slots, word, Result(0, Some(Value(len, slots[c].data))))
  }

  /** The steps that take a lock or decide with the lock held. */
  function LockNext(c: Config, slots: seq<Slot>, word: int, t: nat, op: Op, h: nat, w: Work): Next
    requires InBounds(w, |slots|)
    requires w.Guard? || w.Take? || w.Test? || w.Again? || w.AgainTake? || w.DelTake? || w.Choose?
  {
    match w
    case Guard => Go(slots, word, if word % W32 < c.size && op.key != 0 then Take(h) else Crash)
    case Take(e) =>
      if slots[e].owner.Some? then Blocked
      else Go(slots[e := slots[e].(owner := Some(t))], word, Test(e))
    case Test(e) =>
      if (slots[e].key != 0 || slots[e].id == DELETED) && slots[e].key != op.key && e != Stop(h) then
        Go(slots[e := slots[e].(owner := None)], word, Take(Succ(e, |slots|)))
      else if e == Stop(h) then Go(slots, word, Again(h, e))
      else Go(slots, word, Choose(e))
    case Again(ctr, e) =>
      if slots[e].key != 0 && slots[e].key != op.key && ctr != Stop(h) then
        Go(slots[e := slots[e].(owner := None)], word, AgainTake(Succ(ctr, |slots|), Succ(ctr, |slots|)))
      else Go(slots, word, Choose(e))
    case AgainTake(ctr, e) =>
      if slots[e].owner.Some? then Blocked
      else Go(slots[e := slots[e].(owner := Some(t))], word, Again(ctr, e))
    case DelTake(e) =>
      if slots[e].owner.Some? then Blocked
      else Go(slots[e := slots[e].(owner := Some(t))], word, Choose(e))
    case Choose(e) =>
      Go(slots, word, if slots[e].key == op.key then (if op.kind == Put then Upd(e, 0) else Pur(e, 0))
                      else (if op.kind == Put then Ins(e, 0) else Miss(e)))
  }

  /** The assignments to the slot, the unlock behind them, and the count. */
  function WriteNext(slots: seq<Slot>, word: int, op: Op, w: Work): Next
    requires InBounds(w, |slots|)
    requires w.Upd? || w.Ins? || w.Pur? || w.Miss? || w.Count?
  {
    match w
    case Upd(e, n) =>
      var s := slots[e];
      if n == 0 then Go(slots[e := s.(id := op.id % W32)], word, Upd(e, 1))
      else if n == 1 then Go(slots[e := s.(datalen := op.datalen)], word, Upd(e, 2))
      else if n == 2 then Go(slots[e := s.(data := op.data)], word, Upd(e, 3))
      else Done(slots[e := s.(owner := None)], word, Result(0, None))
    case Ins(e, n) =>
      var s := slots[e];
      if n == 0 then Go(slots[e := s.(id := op.id % W32, opening := true)], word, Ins(e, 1))
      else if n == 1 then Go(slots[e := s.(datalen := op.datalen)], word, Ins(e, 2))
      else if n == 2 then Go(slots[e := s.(key := op.key, opening := false)], word, Ins(e, 3))
      else if n == 3 then Go(slots[e := s.(data := op.data)], word, Ins(e, 4))
      else Go(slots[e := s.(owner := None)], word, Count(e, 1))
    case Pur(e, n) =>
      var s := slots[e];
      if n == 0 then Go(slots[e := s.(id := DELETED)], word, Pur(e, 1))
      else if n == 1 then Go(slots[e := s.(key := 0, opening := false)], word, Pur(e, 2))
      else if n == 2 then Go(slots[e := s.(datalen := 0)], word, Pur(e, 3))
      else if n == 3 then Go(slots[e := s.(data := 0)], word, Pur(e, 4))
      else Go(slots[e := s.(owner := None)], word, Count(e, -1))
    case Miss(e) => Done(slots[e := slots[e].(owner := None)], word, Result(-1, None))
    case Count(_, delta) => Done(slots, AddWord(word, delta), Result(0, None))
  }

  function WorkNext(c: Config, slots: seq<Slot>, word: int, t: nat, op: Op, w: Work): Next
    requires InBounds(w, |slots|)
  {
    match w
    case Key1(_) => ReadNext(slots, word, op, c.home(op.key), w)
    case Id(_) => ReadNext(slots, word, op, c.home(op.key), w)
    case Key2(_) => ReadNext(slots, word, op, c.home(op.key), w)
    case Hit(_) => ReadNext(slots, word, op, c.home(op.key), w)
    case Len(_) => ReadNext(slots, word, op, c.home(op.key), w)
    case Data(_, _) => ReadNext(slots, word, op, c.home(op.key), w)
    case Upd(_, _) => WriteNext(slots, word, op, w)
    case Ins(_, _) => WriteNext(slots, word, op, w)
    case Pur(_, _) => WriteNext(slots, word, op, w)
    case Miss(_) => WriteNext(slots, word, op, w)
    case Count(_, _) => WriteNext(slots, word, op, w)
    case Crash => Blocked
    case _ => LockNext(c, slots, word, t, op, c.home(op.key), w)
  }

  /** The assignment after which other threads see the slot as used: that of the key, or
      already that of the id if it looks like a deleted slot's. */
  predicate Mints(op: Op, w: Work) {
    w.Ins? && (w.n == 2 || (w.n == 0 && op.id % W32 == DELETED))
  }

  /** The state after thread t's step; res is the result if the call returns. */
  predicate Applied(c: Config, s: Table, t: nat, s': Table, res: Option<Result>, i: nat, w: Work, next: Next)
    requires t < |s.jobs| && i < |c.ops|
  {
    match next
    case Blocked => false
    case Go(slots, word, w') =>
      && res == None
      && s' == Table(slots, word, s.jobs[t := Job(i, w')], s.am,
                     if Mints(c.ops[i], w) then s.minted + {i} else s.minted)
    case Done(slots, word, r) =>
      && res == Some(r)
      && s' == Table(slots, word, s.jobs[t := Idle], Apply(s.am, c.ops[i]), s.minted)
  }

  /** One step of thread t inside its operation. */
  predicate Step(c: Config, s: Table, t: nat, s': Table, res: Option<Result>) {
    && t < |s.jobs| && s.jobs[t].Job? && s.jobs[t].i < |c.ops| && InBounds(s.jobs[t].w, |s.slots|)
    && Applied(c, s, t, s', res, s.jobs[t].i, s.jobs[t].w,
               WorkNext(c, s.slots, s.word, t, c.ops[s.jobs[t].i], s.jobs[t].w))
  }

  /** Thread t enters the function for operation i. */
  predicate Enter(c: Config, s: Table, t: nat, i: nat, s': Table) {
    && t < |s.jobs| && s.jobs[t] == Idle && i < |c.ops|
    && s' == s.(jobs := s.jobs[t := Job(i, Start(c.ops[i], c.home(c.ops[i].key)))])
  }

  function Init(c: Config, threads: nat): Table {
    Table(seq(c.size, _ => Slot(0, 0, 0, 0, None, false)), c.ptr * W32, seq(threads, _ => Idle), map[], {})
  }

  /** How many steps are left behind the probe. */
  function Rest(w: Work): int {
    match w
    case Hit(_) => 3
    case Len(_) => 2
    case Data(_, _) => 1
    case DelTake(_) => 9
    case Choose(_) => 8
    case Upd(_, n) => 4 - n
    case Ins(_, n) => 7 - n
    case Pur(_, n) => 7 - n
    case Miss(_) => 1
    case Count(_, _) => 1
    case _ => 0
  }

  // ----- what the input and the table size must satisfy

  ghost predicate Usable(c: Config) {
    && 0 < c.size <= MAX_SIZE
    && 0 <= c.ptr < W32
    && (forall k :: c.home(k) < c.size)
    && (forall i :: 0 <= i < |c.ops| ==> c.ops[i].key != 0)
    && |FreshPuts(c.ops)| < c.size
  }

  // ----- what holds in every state

  /** How many slots a probe passes on its way from its home slot to q. */
  function Dist(h: nat, q: nat, size: nat): int {
    if q >= h then q - h else q + size - h
  }

  /** The test of the probes. */
  predicate NonVirgin(s: Slot) {
    s.key != 0 || s.id == DELETED
  }

  /** The slot holds a key, or has held one. */
  predicate WasUsed(s: Slot) {
    s.key != 0 || (s.id == DELETED && !s.opening)
  }

  /** The contents of a slot without a key: as init_hashtable or a purge has left them. */
  predicate Blank(s: Slot) {
    s.key == 0 && s.datalen == 0 && s.data == 0 && !s.opening && (s.id == 0 || s.id == W32 - 1)
  }

  /** No insertion or purge of this slot is half done. */
  predicate Whole(s: Slot) {
    s.key == 0 ==> Blank(s)
  }

  /** So it is wherever no lock is held. */
  ghost predicate Blanks(slots: seq<Slot>) {
    forall p :: 0 <= p < |slots| && slots[p].owner == None ==> Whole(slots[p])
  }

  predicate Tomb(s: Slot) {
    s.key == 0 && s.id == DELETED && !s.opening
  }

  /** Every slot a probe passes before p has been used. */
  ghost predicate ChainTo(slots: seq<Slot>, h: nat, p: nat) {
    forall q :: 0 <= q < |slots| && Dist(h, q, |slots|) < Dist(h, p, |slots|) ==> WasUsed(slots[q])
  }

  /** Every slot a probe passes before p looks used, and holds another key. */
  ghost predicate Probed(slots: seq<Slot>, h: nat, key: nat, p: nat) {
    forall q :: 0 <= q < |slots| && Dist(h, q, |slots|) < Dist(h, p, |slots|)
      ==> NonVirgin(slots[q]) && slots[q].key != key
  }

  ghost predicate Absent(slots: seq<Slot>, key: nat) {
    forall p :: 0 <= p < |slots| ==> slots[p].key != key
  }

  /** The table says about the key what the map says. */
  ghost predicate InTable(slots: seq<Slot>, am: map<nat, Entry>, key: nat) {
    && (forall p :: 0 <= p < |slots| && slots[p].key == key
          ==> key in am && am[key].value == Value(slots[p].datalen, slots[p].data) && am[key].id % W32 == slots[p].id)
    && (key in am ==> !Absent(slots, key))
  }

  function Holding(job: Job): Option<nat> {
    match job
    case Idle => None
    case Job(_, w) =>
      match w
      case Test(c) => Some(c)
      case Again(_, e) => Some(e)
      case Choose(e) => Some(e)
      case Upd(e, _) => Some(e)
      case Ins(e, _) => Some(e)
      case Pur(e, _) => Some(e)
      case Miss(e) => Some(e)
      case _ => None
  }

  /** The owner field of a slot names the thread that is between lock and unlock. */
  ghost predicate Locks(s: Table) {
    && (forall t :: 0 <= t < |s.jobs| && Holding(s.jobs[t]).Some?
          ==> Holding(s.jobs[t]).value < |s.slots| && s.slots[Holding(s.jobs[t]).value].owner == Some(t))
    && (forall p :: 0 <= p < |s.slots| && s.slots[p].owner.Some?
          ==> s.slots[p].owner.value < |s.jobs| && Holding(s.jobs[s.slots[p].owner.value]) == Some(p))
  }

  /** No key is in two slots. */
  ghost predicate Unique(slots: seq<Slot>) {
    forall p, q :: 0 <= p < |slots| && 0 <= q < |slots| && slots[p].key == slots[q].key && slots[p].key != 0 ==> p == q
  }

  /** Between the home slot of a key and the slot that holds it there is no unused slot. */
  ghost predicate Chains(c: Config, slots: seq<Slot>) {
    forall p :: 0 <= p < |slots| && slots[p].key != 0 ==> ChainTo(slots, c.home(slots[p].key), p)
  }

  function UsedSlots(slots: seq<Slot>): set<nat> {
    set p: nat | p < |slots| && WasUsed(slots[p])
  }

  function TakenSlots(slots: seq<Slot>): set<nat> {
    set p: nat | p < |slots| && NonVirgin(slots[p])
  }

  /** Slots are used up by fresh PUTs only, one each. */
  ghost predicate Frugal(c: Config, s: Table) {
    |TakenSlots(s.slots)| == |s.minted| && s.minted <= FreshPuts(c.ops)
  }

  ghost predicate Active(c: Config, s: Table, key: nat) {
    exists t :: 0 <= t < |s.jobs| && s.jobs[t].Job? && s.jobs[t].i < |c.ops| && c.ops[s.jobs[t].i].key == key
  }

  /** At rest a key has the value that the finished operations gave it. */
  ghost predicate Settled(c: Config, s: Table) {
    forall key :: key != 0 && !Active(c, s, key) ==> InTable(s.slots, s.am, key)
  }

  /** No two threads work on the same key. */
  ghost predicate Exclusive(c: Config, s: Table) {
    forall t, u :: 0 <= t < |s.jobs| && 0 <= u < |s.jobs| && t != u && s.jobs[t].Job? && s.jobs[u].Job?
      && s.jobs[t].i < |c.ops| && s.jobs[u].i < |c.ops|
      ==> c.ops[s.jobs[t].i].key != c.ops[s.jobs[u].i].key
  }

  predicate KindFits(kind: Kind, w: Work) {
    match w
    case Key1(_) => kind != Put
    case Id(_) => kind != Put
    case Key2(_) => kind != Put
    case Hit(_) => kind == Get
    case Len(_) => kind == Get
    case Data(_, _) => kind == Get
    case DelTake(_) => kind == Del
    case Choose(_) => kind != Get
    case Pur(_, _) => kind == Del
    case Miss(_) => kind == Del
    case Count(_, d) => (d == 1 && kind == Put) || (d == -1 && kind == Del)
    case _ => kind == Put
  }

  /** What a thread knows about the table, from what it has read and what it has written. */
  ghost predicate Knows(slots: seq<Slot>, am: map<nat, Entry>, op: Op, h: nat, w: Work)
    requires InBounds(w, |slots|)
  {
    match w
    case Key1(c) => InTable(slots, am, op.key) && Probed(slots, h, op.key, c)
    case Id(c) =>
      && InTable(slots, am, op.key) && Probed(slots, h, op.key, c)
      && slots[c].key != op.key && (Tomb(slots[c]) || Absent(slots, op.key))
    case Key2(c) => InTable(slots, am, op.key) && Probed(slots, h, op.key, c) && NonVirgin(slots[c])
    case Hit(c) => InTable(slots, am, op.key) && (slots[c].key == op.key || Absent(slots, op.key))
    case Len(c) => InTable(slots, am, op.key) && slots[c].key == op.key
    case Data(c, len) => InTable(slots, am, op.key) && slots[c].key == op.key && slots[c].datalen == len
    case Guard => InTable(slots, am, op.key)
    case Take(c) => InTable(slots, am, op.key) && Probed(slots, h, op.key, c) && ChainTo(slots, h, c)
    case Test(c) => InTable(slots, am, op.key) && Probed(slots, h, op.key, c) && ChainTo(slots, h, c) && Whole(slots[c])
    case Again(_, e) => InTable(slots, am, op.key) && Suitable(slots, op, h, e) && Whole(slots[e])
    case AgainTake(_, _) => false
    case DelTake(e) => InTable(slots, am, op.key) && (slots[e].key == op.key || Absent(slots, op.key))
    case Choose(e) => InTable(slots, am, op.key) && Suitable(slots, op, h, e) && Whole(slots[e])
    case Upd(e, n) =>
      && op.key in am && slots[e].key == op.key
      && (n >= 1 ==> slots[e].id == op.id % W32)
      && (n >= 2 ==> slots[e].datalen == op.datalen) && (n >= 3 ==> slots[e].data == op.data)
    case Ins(e, n) =>
      && op.key !in am && ChainTo(slots, h, e)
      && (n < 3 ==> slots[e].key == 0 && Absent(slots, op.key))
      && (n == 0 ==> !NonVirgin(slots[e]))
      && (n >= 1 ==> slots[e].id == op.id % W32) && (1 <= n <= 2 ==> slots[e].opening)
      && (n >= 2 ==> slots[e].datalen == op.datalen)
      && (n >= 3 ==> slots[e].key == op.key && !slots[e].opening) && (n >= 4 ==> slots[e].data == op.data)
    case Pur(e, n) =>
      && op.key in am && (n < 2 ==> slots[e].key == op.key)
      && (n >= 1 ==> slots[e].id == DELETED)
      && (n >= 2 ==> slots[e].key == 0 && !slots[e].opening && Absent(slots, op.key))
      && (n >= 3 ==> slots[e].datalen == 0) && (n >= 4 ==> slots[e].data == 0)
    case Miss(e) => op.key !in am && Absent(slots, op.key) && Whole(slots[e])
    case Count(e, d) =>
      if d == 1 then
        && op.key !in am && slots[e].key == op.key && slots[e].id == op.id % W32
        && slots[e].datalen == op.datalen && slots[e].data == op.data
      else op.key in am && Absent(slots, op.key)
    case Crash => false
  }

  /** The slot to write to: the one with the key, or else one that was never used and ends
      the probe; for a DEL that finds nothing, any. */
  ghost predicate Suitable(slots: seq<Slot>, op: Op, h: nat, e: nat)
    requires e < |slots|
  {
    slots[e].key == op.key
    || (Absent(slots, op.key) && (op.kind == Put ==> !NonVirgin(slots[e]) && ChainTo(slots, h, e)))
  }

  /** The key has been written into an unused slot. */
  predicate Wrote(w: Work) {
    (w.Ins? && w.n >= 3) || (w.Count? && w.delta == 1)
  }

  /** Other threads see the slot as used. */
  predicate Minted(op: Op, w: Work) {
    Wrote(w) || (w.Ins? && w.n >= 1 && op.id % W32 == DELETED)
  }

  /** An insertion into slot p has begun and not written its key. */
  predicate Opens(job: Job, p: nat) {
    job.Job? && job.w.Ins? && job.w.ent == p && 1 <= job.w.n <= 2
  }

  /** A slot is opened by the thread that holds its lock. */
  ghost predicate Openings(s: Table) {
    forall p :: 0 <= p < |s.slots| && s.slots[p].opening ==>
      s.slots[p].owner.Some? && s.slots[p].owner.value < |s.jobs| && Opens(s.jobs[s.slots[p].owner.value], p)
  }

  ghost predicate JobOk(c: Config, s: Table, t: nat)
    requires t < |s.jobs|
  {
    match s.jobs[t]
    case Idle => true
    case Job(i, w) =>
      && i < |c.ops| && InBounds(w, |s.slots|) && KindFits(c.ops[i].kind, w)
      && Lookup(s.am, c.ops[i].key) == Lookup(SeqMap(c.ops, i), c.ops[i].key)
      && (i in s.minted <==> Minted(c.ops[i], w))
      && Knows(s.slots, s.am, c.ops[i], c.home(c.ops[i].key), w)
  }

  ghost predicate JobsOk(c: Config, s: Table) {
    forall t :: 0 <= t < |s.jobs| ==> JobOk(c, s, t)
  }

  // ----- the counter

  function LiveSlots(slots: seq<Slot>): set<nat> {
    set p: nat | p < |slots| && slots[p].key != 0
  }

  predicate ToAdd(job: Job) {
    job.Job? && Wrote(job.w)
  }

  predicate ToSubtract(job: Job) {
    job.Job? && ((job.w.Pur? && job.w.n >= 2) || (job.w.Count? && job.w.delta != 1))
  }

  /** Threads that have inserted and not counted it yet. */
  function Adding(jobs: seq<Job>): set<nat> {
    set t: nat | t < |jobs| && ToAdd(jobs[t])
  }

  /** Threads that have purged and not counted it yet. */
  function Subtracting(jobs: seq<Job>): set<nat> {
    set t: nat | t < |jobs| && ToSubtract(jobs[t])
  }

  function Used(s: Table): int {
    |LiveSlots(s.slots)| + |Subtracting(s.jobs)| - |Adding(s.jobs)|
  }

  /** The word at &used holds the count in its low half and the table's address, never
      disturbed by a carry or a borrow, in its high half. */
  ghost predicate Counted(c: Config, s: Table) {
    && s.word == c.ptr * W32 + Used(s)
    && |LiveSlots(s.slots)| + |Subtracting(s.jobs)| <= |UsedSlots(s.slots)|
  }

  ghost predicate Inv(c: Config, s: Table) {
    && |s.slots| == c.size
    && Locks(s) && Openings(s) && Blanks(s.slots) && Unique(s.slots) && Chains(c, s.slots) && Frugal(c, s)
    && Settled(c, s) && Exclusive(c, s) && JobsOk(c, s) && Counted(c, s)
  }
}
