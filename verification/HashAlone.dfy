/** A thread that runs alone on a table: exactly when its operation returns. */
module HashAlone {
  import opened Options
  import opened HashSpec
  import opened HashTable
  import opened Words

  /** Thread t, alone, takes n steps, or as many as it can. */
  function Solo(c: Config, next: Next, t: nat, op: Op, n: nat): Next
    decreases n
  {
    if n == 0 || !next.Go? || !InBounds(next.w, |next.slots|) then next
    else Solo(c, WorkNext(c, next.slots, next.word, t, op, next.w), t, op, n - 1)
  }

  ghost predicate Returns(c: Config, slots: seq<Slot>, word: int, t: nat, op: Op) {
    exists n: nat :: DoneAfter(c, Go(slots, word, Start(op, c.home(op.key))), t, op, n)
  }

  predicate DoneAfter(c: Config, next: Next, t: nat, op: Op, n: nat) {
    Solo(c, next, t, op, n).Done?
  }

  /** A slot at which a probe for the key ends. */
  predicate Ends(slots: seq<Slot>, key: nat, p: nat)
    requires p < |slots|
  {
    slots[p].key == key || !NonVirgin(slots[p])
  }

  /** The stop test can hold, or the key is in the table, or some slot has never been used. */
  ghost predicate CanEnd(slots: seq<Slot>, h: nat, key: nat) {
    h != 0 || exists p :: 0 <= p < |slots| && Ends(slots, key, p)
  }

  ghost predicate NoLocks(slots: seq<Slot>) {
    forall p :: 0 <= p < |slots| ==> slots[p].owner == None
  }

  // ----- the exact condition

  /** A lookup returns if and only if its home slot is not 0, or its key is in the table,
      or some slot has never been used. */
  lemma LookupReturns(c: Config, slots: seq<Slot>, word: int, t: nat, op: Op)
    requires op.kind == Get && c.home(op.key) < |slots| <= MAX_SIZE
    ensures Returns(c, slots, word, t, op) <==> CanEnd(slots, c.home(op.key), op.key)
  {
    ProbeReturns(c, slots, word, t, op);
  }

  /** So does a purge, when no lock is held. */
  lemma PurgeReturns(c: Config, slots: seq<Slot>, word: int, t: nat, op: Op)
    requires op.kind == Del && c.home(op.key) < |slots| <= MAX_SIZE && NoLocks(slots)
    ensures Returns(c, slots, word, t, op) <==> CanEnd(slots, c.home(op.key), op.key)
  {
    ProbeReturns(c, slots, word, t, op);
  }

  /** And so does an insertion or update, if its assertions hold: that the count is below the
      table size and the key is not 0.  The second pass always ends, but only the stop test
      leads to it. */
  lemma InsertReturns(c: Config, slots: seq<Slot>, word: int, t: nat, op: Op)
    requires op.kind == Put && c.home(op.key) < |slots| <= MAX_SIZE && NoLocks(slots)
    ensures Returns(c, slots, word, t, op)
       <==> word % W32 < c.size && op.key != 0 && CanEnd(slots, c.home(op.key), op.key)
  {
    var h := c.home(op.key);
    assert Start(op, h) == Guard;
    if !(word % W32 < c.size && op.key != 0) {
      forall n: nat ensures !DoneAfter(c, Go(slots, word, Guard), t, op, n) {
        if n > 0 {
          Crashed(c, slots, word, t, op, n - 1);
        }
      }
    } else if CanEnd(slots, h, op.key) {
      var p := if h != 0 then 0 else EndSlot(slots, op.key);
      var n := InsertEnds(c, slots, word, t, op, Take(h), p);
      assert DoneAfter(c, Go(slots, word, Guard), t, op, n + 1);
    } else {
      forall n: nat ensures !DoneAfter(c, Go(slots, word, Guard), t, op, n) {
        if n > 0 {
          InsertHangs(c, slots, word, t, op, Take(h), n - 1);
        }
      }
    }
  }

  /** A failed assertion is the end of the program. */
  lemma {:induction false} Crashed(c: Config, slots: seq<Slot>, word: int, t: nat, op: Op, n: nat)
    ensures !DoneAfter(c, Go(slots, word, Crash), t, op, n)
  {
    assert WorkNext(c, slots, word, t, op, Crash) == Blocked;
    if n > 0 {
      assert Solo(c, Blocked, t, op, n - 1) == Blocked;
    }
  }

  ghost function EndSlot(slots: seq<Slot>, key: nat): (p: nat)
    requires exists p :: 0 <= p < |slots| && Ends(slots, key, p)
    ensures p < |slots| && Ends(slots, key, p)
  {
    var p :| 0 <= p < |slots| && Ends(slots, key, p); p
  }

  // ----- behind the probe

  lemma {:induction false} Finishes(c: Config, slots: seq<Slot>, word: int, t: nat, op: Op, w: Work) returns (n: nat)
    requires InBounds(w, |slots|) && Rest(w) > 0 && (w.DelTake? ==> slots[w.ent].owner == None)
    ensures DoneAfter(c, Go(slots, word, w), t, op, n)
    decreases Rest(w)
  {
    var next := WorkNext(c, slots, word, t, op, w);
    if next.Done? {
      n := 1;
      assert Solo(c, next, t, op, 0) == next;
    } else {
      var m := Finishes(c, next.slots, next.word, t, op, next.w);
      n := m + 1;
    }
  }

  // ----- the probe of lookup and purge_key

  lemma ProbeReturns(c: Config, slots: seq<Slot>, word: int, t: nat, op: Op)
    requires op.kind != Put && c.home(op.key) < |slots| <= MAX_SIZE && (op.kind == Del ==> NoLocks(slots))
    ensures Returns(c, slots, word, t, op) <==> CanEnd(slots, c.home(op.key), op.key)
  {
    var h := c.home(op.key);
    assert Start(op, h) == Key1(h);
    if CanEnd(slots, h, op.key) {
      var p := if h != 0 then h - 1 else EndSlot(slots, op.key);
      assert Stops(slots, h, op.key, p);
      var n := ProbeEnds(c, slots, word, t, op, Key1(h), p);
      assert DoneAfter(c, Go(slots, word, Key1(h)), t, op, n);
    } else {
      forall n: nat ensures !DoneAfter(c, Go(slots, word, Key1(h)), t, op, n) {
        ProbeHangs(c, slots, word, t, op, Key1(h), n);
      }
    }
  }

  /** The probe of a key with home slot h does not go on behind slot p. */
  predicate Stops(slots: seq<Slot>, h: nat, key: nat, p: nat)
    requires p < |slots|
  {
    p == Stop(h) || Ends(slots, key, p)
  }

  /** What the second test of a slot can count on when nobody else writes. */
  predicate Seen(slots: seq<Slot>, w: Work)
    requires InBounds(w, |slots|)
  {
    (w.Id? ==> slots[w.ctr].key == 0) && (w.Key2? ==> NonVirgin(slots[w.ctr]))
  }

  lemma {:induction false} ProbeEnds(c: Config, slots: seq<Slot>, word: int, t: nat, op: Op, w: Work, p: nat)
      returns (n: nat)
    requires op.kind != Put && c.home(op.key) < |slots| <= MAX_SIZE && p < |slots| && InBounds(w, |slots|)
    requires op.kind == Del ==> NoLocks(slots)
    requires Stops(slots, c.home(op.key), op.key, p) && Seen(slots, w) && (w.Key1? || w.Id? || w.Key2?)
    requires Dist(c.home(op.key), w.ctr, |slots|) <= Dist(c.home(op.key), p, |slots|)
    ensures DoneAfter(c, Go(slots, word, w), t, op, n)
    decreases |slots| - Dist(c.home(op.key), w.ctr, |slots|), if w.Key1? then 2 else if w.Id? then 1 else 0
  {
    var next := ReadNext(slots, word, op, c.home(op.key), w);
    var m;
    if next.w == Probing(op, w.ctr) {
      m := Finishes(c, slots, word, t, op, next.w);
    } else {
      StepsTowards(slots, c.home(op.key), op.key, w, p);
      m := ProbeEnds(c, slots, word, t, op, next.w, p);
    }
    n := m + 1;
  }

  lemma StepsTowards(slots: seq<Slot>, h: nat, key: nat, w: Work, p: nat)
    requires h < |slots| && p < |slots| && InBounds(w, |slots|) && Seen(slots, w) && Stops(slots, h, key, p)
    requires w.Key2? && slots[w.ctr].key != key && w.ctr != Stop(h) ==> Dist(h, w.ctr, |slots|) <= Dist(h, p, |slots|)
    ensures w.Key2? && slots[w.ctr].key != key && w.ctr != Stop(h) ==>
              Dist(h, Succ(w.ctr, |slots|), |slots|) == Dist(h, w.ctr, |slots|) + 1 <= Dist(h, p, |slots|)
  {
    if w.Key2? && slots[w.ctr].key != key && w.ctr != Stop(h) {
      assert w.ctr != p;
    }
  }

  lemma {:induction false} ProbeHangs(c: Config, slots: seq<Slot>, word: int, t: nat, op: Op, w: Work, n: nat)
    requires op.kind != Put && c.home(op.key) < |slots| <= MAX_SIZE
    requires InBounds(w, |slots|) && Seen(slots, w) && (w.Key1? || w.Id? || w.Key2?)
    requires !CanEnd(slots, c.home(op.key), op.key)
    ensures !DoneAfter(c, Go(slots, word, w), t, op, n)
    decreases n
  {
    if n > 0 {
      var next := ReadNext(slots, word, op, c.home(op.key), w);
      assert !Ends(slots, op.key, w.ctr);
      ProbeHangs(c, slots, word, t, op, next.w, n - 1);
    }
  }

  // ----- the passes of insert_update

  /** The table with the lock that a thread at w holds. */
  function WithLock(slots: seq<Slot>, w: Work, t: nat): seq<Slot> {
    var e := Holding(Job(0, w));
    if e.Some? && e.value < |slots| then slots[e.value := slots[e.value].(owner := Some(t))] else slots
  }

  /** How many steps the two passes have left. */
  function Togo(size: nat, h: nat, w: Work): int {
    match w
    case Take(q) => 4 * size - 2 * Dist(h, q, size) + 1
    case Test(q) => 4 * size - 2 * Dist(h, q, size)
    case Again(ctr, _) => 2 * size - 2 * Dist(h, ctr, size)
    case AgainTake(ctr, _) => 2 * size - 2 * Dist(h, ctr, size) + 1
    case _ => 0
  }

  /** The first pass has not come round to p; only the stop test leads to the second. */
  ghost predicate OnTheWay(slots: seq<Slot>, h: nat, key: nat, w: Work, p: nat) {
    && InBounds(w, |slots|) && h < |slots| <= MAX_SIZE
    && (w.Take? || w.Test? || w.Again? || w.AgainTake?)
    && (h == 0 ==>
          && p < |slots| && Ends(slots, key, p) && (w.Take? || w.Test?)
          && Dist(h, w.ctr, |slots|) <= Dist(h, p, |slots|))
  }

  lemma {:induction false} InsertEnds(c: Config, slots: seq<Slot>, word: int, t: nat, op: Op, w: Work, p: nat)
      returns (n: nat)
    requires op.kind == Put && NoLocks(slots) && OnTheWay(slots, c.home(op.key), op.key, w, p)
    ensures DoneAfter(c, Go(WithLock(slots, w, t), word, w), t, op, n)
    decreases Togo(|slots|, c.home(op.key), w)
  {
    var next := PassOn(c, slots, word, t, op, w, p);
    var m;
    if next.w.Choose? {
      m := Finishes(c, next.slots, next.word, t, op, next.w);
    } else {
      m := InsertEnds(c, slots, word, t, op, next.w, p);
    }
    n := m + 1;
  }

  /** One step of a pass: on to the next slot, or a slot to write to. */
  ghost predicate GoesOn(slots: seq<Slot>, word: int, t: nat, h: nat, key: nat, w: Work, p: nat, next: Next) {
    && next.Go? && next.word == word && next.slots == WithLock(slots, next.w, t)
    && (if next.w.Choose? then next.w.ent < |slots|
        else OnTheWay(slots, h, key, next.w, p) && 0 <= Togo(|slots|, h, next.w) < Togo(|slots|, h, w))
  }

  lemma PassOn(c: Config, slots: seq<Slot>, word: int, t: nat, op: Op, w: Work, p: nat) returns (next: Next)
    requires op.kind == Put && NoLocks(slots) && OnTheWay(slots, c.home(op.key), op.key, w, p)
    ensures next == WorkNext(c, WithLock(slots, w, t), word, t, op, w)
    ensures GoesOn(slots, word, t, c.home(op.key), op.key, w, p, next)
  {
    next := LockNext(c, WithLock(slots, w, t), word, t, op, c.home(op.key), w);
    match w
    case Test(q) => TestOn(c, slots, word, t, op, q, p);
    case Again(ctr, e) => AgainOn(c, slots, word, t, op, ctr, e, p);
    case _ =>
  }

  lemma TestOn(c: Config, slots: seq<Slot>, word: int, t: nat, op: Op, q: nat, p: nat)
    requires op.kind == Put && NoLocks(slots) && OnTheWay(slots, c.home(op.key), op.key, Test(q), p)
    ensures GoesOn(slots, word, t, c.home(op.key), op.key, Test(q), p,
                   LockNext(c, WithLock(slots, Test(q), t), word, t, op, c.home(op.key), Test(q)))
  {
    Unlocked(slots, q, t);
  }

  lemma AgainOn(c: Config, slots: seq<Slot>, word: int, t: nat, op: Op, ctr: nat, e: nat, p: nat)
    requires op.kind == Put && NoLocks(slots) && OnTheWay(slots, c.home(op.key), op.key, Again(ctr, e), p)
    ensures GoesOn(slots, word, t, c.home(op.key), op.key, Again(ctr, e), p,
                   LockNext(c, WithLock(slots, Again(ctr, e), t), word, t, op, c.home(op.key), Again(ctr, e)))
  {
    Unlocked(slots, e, t);
  }

  lemma Unlocked(slots: seq<Slot>, e: nat, t: nat)
    requires NoLocks(slots) && e < |slots|
    ensures var held := slots[e := slots[e].(owner := Some(t))]; held[e := held[e].(owner := None)] == slots
  {
  }

  lemma {:induction false} InsertHangs(c: Config, slots: seq<Slot>, word: int, t: nat, op: Op, w: Work, n: nat)
    requires op.kind == Put && NoLocks(slots) && c.home(op.key) < |slots| <= MAX_SIZE
    requires InBounds(w, |slots|) && (w.Take? || w.Test?) && !CanEnd(slots, c.home(op.key), op.key)
    ensures !DoneAfter(c, Go(WithLock(slots, w, t), word, w), t, op, n)
    decreases n
  {
    if n > 0 {
      assert !Ends(slots, op.key, w.ctr);
      Unlocked(slots, w.ctr, t);
      var next := WorkNext(c, WithLock(slots, w, t), word, t, op, w);
      InsertHangs(c, slots, word, t, op, next.w, n - 1);
    }
  }
}
