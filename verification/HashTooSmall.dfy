/** Streams that a table with as many slots as keys does not stand: the program, with its
    own hash function and one thread, loses a key or never ends. */
module HashTooSmall {
  import opened Options
  import opened HashSpec
  import opened HashTable
  import opened Words
  import opened HashOneThread
  import A = HashAlone
  import S = HashSystem
  import O = HashTheorems

  /** A slot that nobody has used, one that a DEL has left, and one that a PUT has filled. */
  const Empty: Slot := Slot(0, 0, 0, 0, None, false)

  const Tombstone: Slot := Slot(DELETED, 0, 0, 0, None, false)

  function Full(op: Op): Slot {
    Slot(op.id % W32, op.datalen, op.key, op.data, None, false)
  }

  // ----- calls of a thread that is alone

  /** The first step, and then the others. */
  lemma First(c: Config, next: Next, after: Next, op: Op, n: nat, end: Next)
    requires next.Go? && InBounds(next.w, |next.slots|) && WorkNext(c, next.slots, next.word, 0, op, next.w) == after
    requires A.Solo(c, after, 0, op, n) == end
    ensures A.Solo(c, next, 0, op, n + 1) == end
  {
  }

  /** What an insertion in slot e comes to, and a purge. */
  function Inserted(slots: seq<Slot>, word: int, op: Op, e: nat): Next
    requires e < |slots|
  {
    Done(slots[e := Full(op)], AddWord(word, 1), Result(0, None))
  }

  function Purged(slots: seq<Slot>, word: int, e: nat): Next
    requires e < |slots|
  {
    Done(slots[e := Tombstone], AddWord(word, -1), Result(0, None))
  }

  /** Slot e with its lock held and contents s. */
  function Held(slots: seq<Slot>, e: nat, s: Slot): seq<Slot>
    requires e < |slots|
  {
    slots[e := s.(owner := Some(0))]
  }

  /** The assignments of an insertion. */
  lemma Inserts(c: Config, slots: seq<Slot>, word: int, op: Op, e: nat)
    requires e < |slots| && op.kind == Put && slots[e].key != op.key && slots[e].owner == None
    ensures A.Solo(c, Go(Held(slots, e, slots[e]), word, Choose(e)), 0, op, 7)
         == Inserted(slots, word, op, e)
  {
    var s := slots[e];
    var s1 := s.(id := op.id % W32, opening := true);
    var s2 := s1.(datalen := op.datalen);
    var end := Inserted(slots, word, op, e);
    InsertsKey(c, slots, word, op, e, s2);
    First(c, Go(Held(slots, e, s1), word, Ins(e, 1)), Go(Held(slots, e, s2), word, Ins(e, 2)), op, 4, end);
    First(c, Go(Held(slots, e, s), word, Ins(e, 0)), Go(Held(slots, e, s1), word, Ins(e, 1)), op, 5, end);
    First(c, Go(Held(slots, e, s), word, Choose(e)), Go(Held(slots, e, s), word, Ins(e, 0)), op, 6, end);
  }

  lemma InsertsKey(c: Config, slots: seq<Slot>, word: int, op: Op, e: nat, s2: Slot)
    requires e < |slots| && s2.id == op.id % W32 && s2.datalen == op.datalen
    ensures A.Solo(c, Go(Held(slots, e, s2), word, Ins(e, 2)), 0, op, 4) == Inserted(slots, word, op, e)
  {
    var s3 := s2.(key := op.key, opening := false);
    var s4 := s3.(data := op.data);
    var end := Inserted(slots, word, op, e);
    assert A.Solo(c, end, 0, op, 0) == end;
    First(c, Go(slots[e := Full(op)], word, Count(e, 1)), end, op, 0, end);
    assert Held(slots, e, s4)[e := Full(op)] == slots[e := Full(op)];
    First(c, Go(Held(slots, e, s4), word, Ins(e, 4)), Go(slots[e := Full(op)], word, Count(e, 1)), op, 1, end);
    First(c, Go(Held(slots, e, s3), word, Ins(e, 3)), Go(Held(slots, e, s4), word, Ins(e, 4)), op, 2, end);
    First(c, Go(Held(slots, e, s2), word, Ins(e, 2)), Go(Held(slots, e, s3), word, Ins(e, 3)), op, 3, end);
  }

  /** The assignments of a purge. */
  lemma Purges(c: Config, slots: seq<Slot>, word: int, op: Op, e: nat)
    requires e < |slots| && op.kind == Del && slots[e].key == op.key && slots[e].owner == None && !slots[e].opening
    ensures A.Solo(c, Go(Held(slots, e, slots[e]), word, Choose(e)), 0, op, 7)
         == Purged(slots, word, e)
  {
    var s := slots[e];
    var s1 := s.(id := DELETED);
    var s2 := s1.(key := 0);
    var s3 := s2.(datalen := 0);
    var s4 := s3.(data := 0);
    var left := slots[e := Tombstone];
    var end := Purged(slots, word, e);
    assert A.Solo(c, end, 0, op, 0) == end;
    First(c, Go(left, word, Count(e, -1)), end, op, 0, end);
    assert Held(slots, e, s4)[e := s4.(owner := None)] == left;
    First(c, Go(Held(slots, e, s4), word, Pur(e, 4)), Go(left, word, Count(e, -1)), op, 1, end);
    First(c, Go(Held(slots, e, s3), word, Pur(e, 3)), Go(Held(slots, e, s4), word, Pur(e, 4)), op, 2, end);
    First(c, Go(Held(slots, e, s2), word, Pur(e, 2)), Go(Held(slots, e, s3), word, Pur(e, 3)), op, 3, end);
    First(c, Go(Held(slots, e, s1), word, Pur(e, 1)), Go(Held(slots, e, s2), word, Pur(e, 2)), op, 4, end);
    First(c, Go(Held(slots, e, s), word, Pur(e, 0)), Go(Held(slots, e, s1), word, Pur(e, 1)), op, 5, end);
    First(c, Go(Held(slots, e, s), word, Choose(e)), Go(Held(slots, e, s), word, Pur(e, 0)), op, 6, end);
  }

  /** A PUT whose home slot has never been used. */
  lemma PutHome(c: Config, slots: seq<Slot>, word: int, op: Op)
    requires c.home(op.key) < |slots| <= MAX_SIZE && op.kind == Put && op.key != 0 && word % W32 < c.size
    requires slots[c.home(op.key)] == Empty
    ensures A.Solo(c, Go(slots, word, Guard), 0, op, 10)
         == Inserted(slots, word, op, c.home(op.key))
  {
    var e := c.home(op.key);
    var end := Inserted(slots, word, op, e);
    Inserts(c, slots, word, op, e);
    First(c, Go(Held(slots, e, slots[e]), word, Test(e)), Go(Held(slots, e, slots[e]), word, Choose(e)), op, 7, end);
    First(c, Go(slots, word, Take(e)), Go(Held(slots, e, slots[e]), word, Test(e)), op, 8, end);
    First(c, Go(slots, word, Guard), Go(slots, word, Take(e)), op, 9, end);
  }

  /** A DEL whose home slot holds the key. */
  predicate AtHome(c: Config, slots: seq<Slot>, op: Op) {
    && op.kind == Del && op.key != 0 && c.home(op.key) < |slots|
    && slots[c.home(op.key)].key == op.key && slots[c.home(op.key)].owner == None && !slots[c.home(op.key)].opening
  }

  lemma DelHome(c: Config, slots: seq<Slot>, word: int, op: Op)
    requires AtHome(c, slots, op)
    ensures A.Solo(c, Go(slots, word, Key1(c.home(op.key))), 0, op, 10)
         == Purged(slots, word, c.home(op.key))
  {
    var e := c.home(op.key);
    var end := Purged(slots, word, e);
    Purges(c, slots, word, op, e);
    First(c, Go(slots, word, DelTake(e)), Go(Held(slots, e, slots[e]), word, Choose(e)), op, 7, end);
    First(c, Go(slots, word, Key2(e)), Go(slots, word, DelTake(e)), op, 8, end);
    First(c, Go(slots, word, Key1(e)), Go(slots, word, Key2(e)), op, 9, end);
  }

  // ----- calls of the program

  /** The word at &used with n keys counted. */
  function Word(ptr: nat, n: nat): int {
    ptr * W32 + n
  }

  lemma WordStep(ptr: nat, n: nat)
    requires ptr < W32 && n + 1 < W32
    ensures Word(ptr, n) % W32 == n && AddWord(Word(ptr, n), 1) == Word(ptr, n + 1)
        && AddWord(Word(ptr, n + 1), -1) == Word(ptr, n)
  {
  }

  lemma ServePut(c: Config, ss: seq<S.Sys>, i: nat, slots: seq<Slot>, ptr: nat, n: nat, e: nat, steps: nat)
      returns (rr: seq<S.Sys>)
    requires S.Run(c, 1, ss) && Between(S.Last(ss), i, slots, Word(ptr, n)) && i < |c.ops| && c.ops[i].kind == Put
    requires ptr < W32 && n + 1 < W32 && e < |slots|
    requires A.Solo(c, Go(slots, Word(ptr, n), Guard), 0, c.ops[i], steps) == Inserted(slots, Word(ptr, n), c.ops[i], e)
    ensures S.Run(c, 1, rr) && Between(S.Last(rr), i + 1, slots[e := Full(c.ops[i])], Word(ptr, n + 1))
  {
    WordStep(ptr, n);
    rr := Serve(c, ss, i, slots, Word(ptr, n), steps, Inserted(slots, Word(ptr, n), c.ops[i], e));
  }

  lemma ServeDel(c: Config, ss: seq<S.Sys>, i: nat, slots: seq<Slot>, ptr: nat, n: nat) returns (rr: seq<S.Sys>)
    requires S.Run(c, 1, ss) && Between(S.Last(ss), i, slots, Word(ptr, n + 1)) && i < |c.ops|
    requires ptr < W32 && n + 1 < W32 && AtHome(c, slots, c.ops[i])
    ensures S.Run(c, 1, rr) && Between(S.Last(rr), i + 1, slots[c.home(c.ops[i].key) := Tombstone], Word(ptr, n))
  {
    WordStep(ptr, n);
    DelHome(c, slots, Word(ptr, n + 1), c.ops[i]);
    rr := Serve(c, ss, i, slots, Word(ptr, n + 1), 10, Purged(slots, Word(ptr, n + 1), c.home(c.ops[i].key)));
  }

  // ----- a key is lost

  /** Two keys, both of home slot 1 in a table with two slots. */
  const Losing: seq<Op> := [
    Op(0, 1, Put, 4, 100), Op(1, 3, Put, 4, 200), Op(2, 1, Del, 0, 0), Op(3, 1, Put, 4, 300), Op(4, 3, Get, 0, 0)
  ]

  /** PUT 3 when key 1 is in the home slot: the second pass settles for slot 0. */
  lemma PutBeside(c: Config, slots: seq<Slot>, word: int, op: Op)
    requires |slots| == 2 && c.home(op.key) == 1 && op.kind == Put && op.key != 0 && word % W32 < c.size
    requires slots[0] == Empty && NonVirgin(slots[1]) && slots[1].key != op.key && slots[1].owner == None
    ensures A.Solo(c, Go(slots, word, Guard), 0, op, 13) == Inserted(slots, word, op, 0)
  {
    var end := Inserted(slots, word, op, 0);
    var held := Held(slots, 0, Empty);
    Inserts(c, slots, word, op, 0);
    First(c, Go(held, word, Again(1, 0)), Go(held, word, Choose(0)), op, 7, end);
    First(c, Go(held, word, Test(0)), Go(held, word, Again(1, 0)), op, 8, end);
    First(c, Go(slots, word, Take(0)), Go(held, word, Test(0)), op, 9, end);
    FirstSlot(c, slots, word, op, 10, end);
  }

  /** The home slot is passed. */
  lemma FirstSlot(c: Config, slots: seq<Slot>, word: int, op: Op, n: nat, end: Next)
    requires |slots| == 2 && c.home(op.key) == 1 && op.kind == Put && op.key != 0 && word % W32 < c.size
    requires NonVirgin(slots[1]) && slots[1].key != op.key && slots[1].owner == None
    requires A.Solo(c, Go(slots, word, Take(0)), 0, op, n) == end
    ensures A.Solo(c, Go(slots, word, Guard), 0, op, n + 3) == end
  {
    var held := Held(slots, 1, slots[1]);
    assert held[1 := slots[1]] == slots;
    First(c, Go(held, word, Test(1)), Go(slots, word, Take(0)), op, n, end);
    First(c, Go(slots, word, Take(1)), Go(held, word, Test(1)), op, n + 1, end);
    First(c, Go(slots, word, Guard), Go(slots, word, Take(1)), op, n + 2, end);
  }

  /** PUT 1 when key 3 is in slot 0 and the home slot is a tombstone: the second pass looks
      at slot 0 only, and stops there. */
  lemma PutOver(c: Config, slots: seq<Slot>, word: int, op: Op)
    requires |slots| == 2 && c.home(op.key) == 1 && op.kind == Put && op.key != 0 && word % W32 < c.size
    requires slots[0].key != 0 && slots[0].key != op.key && slots[0].owner == None
    requires NonVirgin(slots[1]) && slots[1].key != op.key && slots[1].owner == None
    ensures A.Solo(c, Go(slots, word, Guard), 0, op, 15) == Inserted(slots, word, op, 0)
  {
    var held := Held(slots, 0, slots[0]);
    SecondLap(c, slots, word, op);
    First(c, Go(held, word, Test(0)), Go(held, word, Again(1, 0)), op, 10, Inserted(slots, word, op, 0));
    First(c, Go(slots, word, Take(0)), Go(held, word, Test(0)), op, 11, Inserted(slots, word, op, 0));
    FirstSlot(c, slots, word, op, 12, Inserted(slots, word, op, 0));
  }

  lemma SecondLap(c: Config, slots: seq<Slot>, word: int, op: Op)
    requires |slots| == 2 && c.home(op.key) == 1 && op.kind == Put
    requires slots[0].key != 0 && slots[0].key != op.key && slots[0].owner == None
    ensures A.Solo(c, Go(Held(slots, 0, slots[0]), word, Again(1, 0)), 0, op, 10) == Inserted(slots, word, op, 0)
  {
    var end := Inserted(slots, word, op, 0);
    var held := Held(slots, 0, slots[0]);
    Inserts(c, slots, word, op, 0);
    assert held[0 := slots[0]] == slots;
    First(c, Go(held, word, Again(0, 0)), Go(held, word, Choose(0)), op, 7, end);
    First(c, Go(slots, word, AgainTake(0, 0)), Go(held, word, Again(0, 0)), op, 8, end);
    First(c, Go(held, word, Again(1, 0)), Go(slots, word, AgainTake(0, 0)), op, 9, end);
  }

  /** GET 3 passes the deleted slot and finds another key in the last one. */
  lemma GetMisses(c: Config, slots: seq<Slot>, word: int, op: Op)
    requires |slots| == 2 && c.home(op.key) == 1 && op.kind == Get && op.key != 0
    requires slots[0].key != 0 && slots[0].key != op.key && slots[1].key == 0 && slots[1].id == DELETED
    ensures A.Solo(c, Go(slots, word, Key1(1)), 0, op, 6) == Done(slots, word, Result(-1, None))
  {
    var end := Done(slots, word, Result(-1, None));
    assert A.Solo(c, end, 0, op, 0) == end;
    First(c, Go(slots, word, Hit(0)), end, op, 0, end);
    First(c, Go(slots, word, Key2(0)), Go(slots, word, Hit(0)), op, 1, end);
    First(c, Go(slots, word, Key1(0)), Go(slots, word, Key2(0)), op, 2, end);
    First(c, Go(slots, word, Key2(1)), Go(slots, word, Key1(0)), op, 3, end);
    First(c, Go(slots, word, Id(1)), Go(slots, word, Key2(1)), op, 4, end);
    First(c, Go(slots, word, Key1(1)), Go(slots, word, Id(1)), op, 5, end);
  }

  /** The table with what its two slots hold. */
  function Pair(a: Slot, b: Slot): seq<Slot> {
    [a, b]
  }

  ghost predicate LosingConfig(c: Config, ptr: nat) {
    c.ops == Losing && c.size == 2 && c.home(1) == c.home(3) == 1 && ptr < W32
  }

  lemma LosingFirst(c: Config, ss: seq<S.Sys>, ptr: nat) returns (rr: seq<S.Sys>)
    requires LosingConfig(c, ptr) && S.Run(c, 1, ss) && Between(S.Last(ss), 0, Pair(Empty, Empty), Word(ptr, 0))
    ensures S.Run(c, 1, rr) && Between(S.Last(rr), 1, Pair(Empty, Full(Losing[0])), Word(ptr, 1))
  {
    WordStep(ptr, 0);
    PutHome(c, Pair(Empty, Empty), Word(ptr, 0), Losing[0]);
    rr := ServePut(c, ss, 0, Pair(Empty, Empty), ptr, 0, 1, 10);
  }

  lemma LosingSecond(c: Config, ss: seq<S.Sys>, ptr: nat) returns (rr: seq<S.Sys>)
    requires LosingConfig(c, ptr) && S.Run(c, 1, ss)
        && Between(S.Last(ss), 1, Pair(Empty, Full(Losing[0])), Word(ptr, 1))
    ensures S.Run(c, 1, rr) && Between(S.Last(rr), 2, Pair(Full(Losing[1]), Full(Losing[0])), Word(ptr, 2))
  {
    WordStep(ptr, 1);
    PutBeside(c, Pair(Empty, Full(Losing[0])), Word(ptr, 1), Losing[1]);
    rr := ServePut(c, ss, 1, Pair(Empty, Full(Losing[0])), ptr, 1, 0, 13);
  }

  lemma LosingThird(c: Config, ss: seq<S.Sys>, ptr: nat) returns (rr: seq<S.Sys>)
    requires LosingConfig(c, ptr) && S.Run(c, 1, ss)
        && Between(S.Last(ss), 2, Pair(Full(Losing[1]), Full(Losing[0])), Word(ptr, 2))
    ensures S.Run(c, 1, rr) && Between(S.Last(rr), 3, Pair(Full(Losing[1]), Tombstone), Word(ptr, 1))
  {
    rr := ServeDel(c, ss, 2, Pair(Full(Losing[1]), Full(Losing[0])), ptr, 1);
  }

  lemma LosingFourth(c: Config, ss: seq<S.Sys>, ptr: nat) returns (rr: seq<S.Sys>)
    requires LosingConfig(c, ptr) && S.Run(c, 1, ss)
        && Between(S.Last(ss), 3, Pair(Full(Losing[1]), Tombstone), Word(ptr, 1))
    ensures S.Run(c, 1, rr) && Between(S.Last(rr), 4, Pair(Full(Losing[3]), Tombstone), Word(ptr, 2))
  {
    WordStep(ptr, 1);
    PutOver(c, Pair(Full(Losing[1]), Tombstone), Word(ptr, 1), Losing[3]);
    rr := ServePut(c, ss, 3, Pair(Full(Losing[1]), Tombstone), ptr, 1, 0, 15);
  }

  lemma LosingLast(c: Config, ss: seq<S.Sys>, ptr: nat) returns (rr: seq<S.Sys>)
    requires LosingConfig(c, ptr) && S.Run(c, 1, ss)
        && Between(S.Last(ss), 4, Pair(Full(Losing[3]), Tombstone), Word(ptr, 2))
    ensures S.Run(c, 1, rr) && 4 in S.Last(rr).results && S.Last(rr).results[4] == Result(-1, None)
  {
    var slots := Pair(Full(Losing[3]), Tombstone);
    GetMisses(c, slots, Word(ptr, 2), Losing[4]);
    rr := Serve(c, ss, 4, slots, Word(ptr, 2), 6, Done(slots, Word(ptr, 2), Result(-1, None)));
  }

  /** PUT 1, PUT 3, DEL 1, PUT 1, GET 3 in two slots: the last PUT takes the slot of key 3, and the
      program answers the GET with -1. */
  lemma LosesKey(ptr: nat) returns (ss: seq<S.Sys>)
    requires ptr < W32
    ensures S.Run(O.Program(Losing, 2, ptr), 1, ss)
    ensures 4 in S.Last(ss).results && S.Last(ss).results[4] == Result(-1, None)
    ensures Answer(SeqMap(Losing, 4), Losing[4]) == Result(0, Some(Value(4, 200)))
  {
    var c := O.Program(Losing, 2, ptr);
    ss := [S.Init(c, 1)];
    assert S.Last(ss).tab.slots == Pair(Empty, Empty);
    ss := LosingFirst(c, ss, ptr);
    ss := LosingSecond(c, ss, ptr);
    ss := LosingThird(c, ss, ptr);
    ss := LosingFourth(c, ss, ptr);
    ss := LosingLast(c, ss, ptr);
    LosingMap();
  }

  lemma LosingMap()
    ensures SeqMap(Losing, 4) == map[3 := Entry(1, Value(4, 200)), 1 := Entry(3, Value(4, 300))]
  {
    assert SeqMap(Losing, 1) == map[1 := Entry(0, Value(4, 100))];
    assert SeqMap(Losing, 2) == map[1 := Entry(0, Value(4, 100)), 3 := Entry(1, Value(4, 200))];
    assert SeqMap(Losing, 3) == map[3 := Entry(1, Value(4, 200))];
  }

  // ----- a table that fills up

  /** PUT 1 to PUT size, DEL size, GET size. */
  function Filling(size: nat): seq<Op> {
    seq(size, i requires 0 <= i => Op(i, i + 1, Put, 0, 0)) + [Op(size, size, Del, 0, 0), Op(size + 1, size, Get, 0, 0)]
  }

  /** The key whose home slot is p. */
  function KeyAt(size: nat, p: nat): (key: nat)
    requires size > 0
    ensures key > 0
  {
    if p == 0 then size else p
  }

  /** The slots when keys 1 to n are in their home slots. */
  function Filled(size: nat, n: nat): seq<Slot>
    requires size > 0
  {
    seq(size, p requires 0 <= p => FilledAt(size, n, p))
  }

  function FilledAt(size: nat, n: nat, p: nat): Slot
    requires size > 0
  {
    var key := KeyAt(size, p);
    if key <= n then Full(Op(key - 1, key, Put, 0, 0)) else Empty
  }

  lemma SmallKey(key: nat)
    requires key < W32
    ensures key / W32 + key % W32 == key
  {
  }

  lemma Remainder(key: nat, size: nat)
    requires 0 < key <= size
    ensures key % size == if key == size then 0 else key
  {
  }

  lemma HomeOf(size: nat, key: nat)
    requires 0 < key <= size <= MAX_SIZE
    ensures HashFunc(key, size) == if key == size then 0 else key
  {
    SmallKey(key);
    Remainder(key, size);
  }

  lemma FilledMore(size: nat, n: nat)
    requires n < size <= MAX_SIZE
    ensures HashFunc(n + 1, size) < size && Filled(size, n)[HashFunc(n + 1, size)] == Empty
    ensures Filled(size, n)[HashFunc(n + 1, size) := Full(Filling(size)[n])] == Filled(size, n + 1)
  {
    HomeOf(size, n + 1);
    var h := HashFunc(n + 1, size);
    assert KeyAt(size, h) == n + 1;
    assert Filling(size)[n] == Op(n, n + 1, Put, 0, 0);
    forall p | 0 <= p < size ensures p != h ==> FilledAt(size, n, p) == FilledAt(size, n + 1, p) {
      assert KeyAt(size, p) == n + 1 ==> p == h;
    }
  }

  lemma FillOne(c: Config, ss: seq<S.Sys>, size: nat, ptr: nat, n: nat) returns (rr: seq<S.Sys>)
    requires 0 < size && c == O.Program(Filling(size), size, ptr) && n < size <= MAX_SIZE && ptr < W32
    requires S.Run(c, 1, ss) && Between(S.Last(ss), n, Filled(size, n), Word(ptr, n))
    ensures S.Run(c, 1, rr) && Between(S.Last(rr), n + 1, Filled(size, n + 1), Word(ptr, n + 1))
  {
    FilledMore(size, n);
    WordStep(ptr, n);
    PutHome(c, Filled(size, n), Word(ptr, n), c.ops[n]);
    rr := ServePut(c, ss, n, Filled(size, n), ptr, n, HashFunc(n + 1, size), 10);
  }

  lemma {:induction false} FillUp(c: Config, size: nat, ptr: nat, n: nat) returns (ss: seq<S.Sys>)
    requires 0 < size <= MAX_SIZE && c == O.Program(Filling(size), size, ptr) && n <= size && ptr < W32
    ensures S.Run(c, 1, ss) && Between(S.Last(ss), n, Filled(size, n), Word(ptr, n))
  {
    if n == 0 {
      ss := [S.Init(c, 1)];
      assert S.Last(ss).tab.slots == Filled(size, 0);
    } else {
      ss := FillUp(c, size, ptr, n - 1);
      ss := FillOne(c, ss, size, ptr, n - 1);
    }
  }

  /** The slots behind the DEL. */
  function Stuck(size: nat): seq<Slot>
    requires size > 0
  {
    Filled(size, size)[0 := Tombstone]
  }

  lemma EmptyNone(c: Config, size: nat, ptr: nat) returns (ss: seq<S.Sys>)
    requires 0 < size <= MAX_SIZE && c == O.Program(Filling(size), size, ptr) && ptr < W32
    ensures S.Run(c, 1, ss) && Between(S.Last(ss), size + 1, Stuck(size), Word(ptr, size - 1))
  {
    ss := FillUp(c, size, ptr, size);
    HomeOf(size, size);
    ss := ServeDel(c, ss, size, Filled(size, size), ptr, size - 1);
  }

  /** Its probe starts at slot 0, where the stop test cannot hold, and no slot ends it. */
  lemma CannotEnd(size: nat)
    requires 0 < size <= MAX_SIZE
    ensures HashFunc(size, size) == 0 && !A.CanEnd(Stuck(size), 0, size)
  {
    HomeOf(size, size);
    forall p | 0 <= p < size ensures !A.Ends(Stuck(size), size, p) {
      assert p > 0 ==> Stuck(size)[p].key == p;
    }
  }

  lemma RunsOn(size: nat, ptr: nat, n: nat) returns (ss: seq<S.Sys>)
    requires 0 < size <= MAX_SIZE && ptr < W32
    ensures S.Run(O.Program(Filling(size), size, ptr), 1, ss) && |ss| > n
  {
    var c := O.Program(Filling(size), size, ptr);
    ss := EmptyNone(c, size, ptr);
    ss := Admit(c, ss, size + 1, Stuck(size), Word(ptr, size - 1));
    CannotEnd(size);
    ss := ProbeOn(c, ss, size + 1, Go(Stuck(size), Word(ptr, size - 1), Key1(0)), n);
  }

  /** In a table of any size there is a stream of as many keys as slots that never ends: no
      run of one thread gets to its end, and none gets stuck. */
  lemma NeverCompletes(size: nat, ptr: nat, ss: seq<S.Sys>)
    requires 0 < size <= MAX_SIZE && ptr < W32 && S.Run(O.Program(Filling(size), size, ptr), 1, ss)
    ensures !O.AllExited(S.Last(ss))
    ensures exists s' :: S.Next(O.Program(Filling(size), size, ptr), S.Last(ss), s')
  {
    var c := O.Program(Filling(size), size, ptr);
    var rr := RunsOn(size, ptr, |ss|);
    OnlyRun(c, ss, rr);
    assert S.Last(ss) == rr[|ss| - 1];
    assert S.Next(c, rr[|ss| - 1], rr[|ss| - 1 + 1]);
    RunSingle(c, ss);
    if O.AllExited(S.Last(ss)) {
      ExitedLast(c, S.Last(ss), rr[|ss|]);
    }
  }

  // ----- which is what the theorems about runs ask for, but for one slot

  /** 0 to n - 1. */
  function Below(n: nat): set<nat> {
    if n == 0 then {} else Below(n - 1) + {n - 1}
  }

  lemma {:induction false} BelowSize(n: nat)
    ensures |Below(n)| == n && forall k :: k in Below(n) <==> 0 <= k < n
  {
    if n > 0 {
      BelowSize(n - 1);
    }
  }

  lemma {:induction false} FillingMap(size: nat, n: nat)
    requires n <= size
    ensures forall k :: k in SeqMap(Filling(size), n) <==> 0 < k <= n
  {
    if n > 0 {
      FillingMap(size, n - 1);
      assert Filling(size)[n - 1] == Op(n - 1, n, Put, 0, 0);
    }
  }

  function Keys(ops: seq<Op>): set<nat> {
    set i | 0 <= i < |ops| :: ops[i].key
  }

  /** As many insertions of absent keys as slots, and as many keys; the rest is as it should
      be. */
  lemma FillingInput(size: nat)
    requires 0 < size <= MAX_SIZE
    ensures |FreshPuts(Filling(size))| == |Keys(Filling(size))| == size
    ensures forall i :: 0 <= i < |Filling(size)| ==> Filling(size)[i].key != 0
    ensures forall i, j :: 0 <= i < j < |Filling(size)| ==> Filling(size)[i].id < Filling(size)[j].id
  {
    FillingKeys(size);
    FillingFresh(size);
  }

  lemma FillingKeys(size: nat)
    requires 0 < size
    ensures |Keys(Filling(size))| == size
  {
    var ops := Filling(size);
    forall k | 0 < k <= size ensures k in Keys(ops) {
      assert ops[k - 1].key == k;
    }
    BelowSize(size + 1);
    assert Keys(ops) == Below(size + 1) - {0};
  }

  lemma FillingFresh(size: nat)
    ensures |FreshPuts(Filling(size))| == size
  {
    var ops := Filling(size);
    forall i | 0 <= i < size ensures i in FreshPuts(ops) {
      assert ops[i] == Op(i, i + 1, Put, 0, 0);
      FillingMap(size, i);
    }
    BelowSize(size);
    assert FreshPuts(ops) == Below(size);
  }
}
