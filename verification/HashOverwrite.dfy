/** What goes wrong in a table without a never-used slot: exactly when an insertion takes
    the slot of another key. */
module HashOverwrite {
  import opened HashSpec
  import opened HashTable
  import opened Words
  import opened HashAlone

  /** With the slot's lock held, the thread has settled for slot e. */
  ghost predicate Takes(c: Config, slots: seq<Slot>, word: int, t: nat, op: Op, e: nat) {
    exists n: nat :: TakesAt(Solo(c, Go(slots, word, Guard), t, op, n), e)
  }

  predicate TakesAt(next: Next, e: nat) {
    next.Go? && next.w == Choose(e)
  }

  /** Every slot but the home slot holds a key, and the home slot has been used. */
  ghost predicate Crowded(slots: seq<Slot>, h: nat)
    requires h < |slots|
  {
    NonVirgin(slots[h]) && forall p :: 0 <= p < |slots| && p != h ==> slots[p].key != 0
  }

  ghost predicate Quiet(c: Config, slots: seq<Slot>, op: Op) {
    && op.kind == Put && c.home(op.key) < |slots| <= MAX_SIZE && Absent(slots, op.key)
    && NoLocks(slots) && forall p :: 0 <= p < |slots| ==> !slots[p].opening
  }

  /** The second pass skips the home slot, and its stop test says nothing about the slot it
      stops at: the insertion of an absent key takes a slot that holds another key if and
      only if the home slot is not 0 and is the only one that could be free. */
  lemma InsertOverwrites(c: Config, slots: seq<Slot>, word: int, t: nat, op: Op)
    requires Quiet(c, slots, op) && op.key != 0 && word % W32 < c.size
    ensures (exists e :: 0 <= e < |slots| && slots[e].key != 0 && Takes(c, slots, word, t, op, e))
      <==> c.home(op.key) != 0 && Crowded(slots, c.home(op.key))
  {
    var h := c.home(op.key);
    if h != 0 && Crowded(slots, h) {
      var n := ReachesLast(c, slots, word, t, op, Take(h));
      GuardFirst(c, slots, word, t, op, n + 1);
      assert Takes(c, slots, word, t, op, h - 1);
    } else {
      forall n: nat, e | 0 <= e < |slots| && TakesAt(Solo(c, Go(slots, word, Guard), t, op, n), e)
        ensures slots[e].key == 0
      {
        GuardFirst(c, slots, word, t, op, n);
        TakesFree(c, slots, word, t, op, Take(h), n - 1, e);
      }
    }
  }

  lemma GuardFirst(c: Config, slots: seq<Slot>, word: int, t: nat, op: Op, n: nat)
    requires Quiet(c, slots, op) && op.key != 0 && word % W32 < c.size
    ensures n > 0 ==>
              Solo(c, Go(slots, word, Guard), t, op, n) == Solo(c, Go(slots, word, Take(c.home(op.key))), t, op, n - 1)
    ensures n == 0 ==> Solo(c, Go(slots, word, Guard), t, op, n) == Go(slots, word, Guard)
  {
  }

  /** The slots that the two passes have seen. */
  ghost predicate Passed(slots: seq<Slot>, h: nat, w: Work)
    requires h < |slots|
  {
    match w
    case Take(q) => q < |slots| && ChainTo(slots, h, q)
    case Test(q) => q < |slots| && ChainTo(slots, h, q)
    case Again(ctr, e) => h != 0 && ChainTo(slots, h, h - 1) && SecondPass(slots, h, ctr, e)
    case AgainTake(ctr, e) => h != 0 && ChainTo(slots, h, h - 1) && ctr != h && SecondPass(slots, h, ctr, e)
    case _ => false
  }

  ghost predicate SecondPass(slots: seq<Slot>, h: nat, ctr: nat, e: nat)
    requires h < |slots|
  {
    && ctr < |slots| && e < |slots|
    && (if ctr == h then e == h - 1
        else e == ctr && forall p :: 0 <= p < |slots|
                           ==> (p == h - 1 || 0 < Dist(h, p, |slots|) < Dist(h, ctr, |slots|)) ==> slots[p].key != 0)
  }

  /** What a step of either pass comes to: the next slot, or a slot to write to. */
  ghost predicate PassGoes(slots: seq<Slot>, h: nat, t: nat, word: int, w: Work, next: Next)
    requires h < |slots|
  {
    && next.Go? && next.word == word && next.slots == WithLock(slots, next.w, t)
    && (if next.w.Choose? then
          next.w.ent < |slots| && (slots[next.w.ent].key == 0 || (h != 0 && Crowded(slots, h)))
          && (h != 0 && Crowded(slots, h) ==> next.w.ent == h - 1)
        else Passed(slots, h, next.w) && (h != 0 ==> Togo(|slots|, h, next.w) < Togo(|slots|, h, w)))
  }

  lemma FirstPassStep(c: Config, slots: seq<Slot>, word: int, t: nat, op: Op, w: Work)
    requires Quiet(c, slots, op) && Passed(slots, c.home(op.key), w) && (w.Take? || w.Test?)
    ensures PassGoes(slots, c.home(op.key), t, word, w,
        LockNext(c, WithLock(slots, w, t), word, t, op, c.home(op.key), w))
  {
    var h := c.home(op.key);
    if w.Test? {
      var q := w.ctr;
      Unlocked(slots, q, t);
      if NonVirgin(slots[q]) && q != Stop(h) {
        NextInChain(slots, h, q);
      }
    }
  }

  lemma NextInChain(slots: seq<Slot>, h: nat, q: nat)
    requires h < |slots| && q < |slots| && ChainTo(slots, h, q) && WasUsed(slots[q]) && q != Stop(h)
    ensures ChainTo(slots, h, Succ(q, |slots|))
    ensures h != 0 ==> Dist(h, Succ(q, |slots|), |slots|) == Dist(h, q, |slots|) + 1
  {
    forall p | 0 <= p < |slots| && Dist(h, p, |slots|) == Dist(h, q, |slots|) ensures p == q {
    }
  }

  lemma SecondPassStep(c: Config, slots: seq<Slot>, word: int, t: nat, op: Op, w: Work)
    requires Quiet(c, slots, op) && Passed(slots, c.home(op.key), w) && w.Again?
    ensures PassGoes(slots, c.home(op.key), t, word, w,
        LockNext(c, WithLock(slots, w, t), word, t, op, c.home(op.key), w))
  {
    var h := c.home(op.key);
    var next := AgainGoes(c, slots, word, t, op, w.ctr, w.ent);
    if slots[w.ent].key != 0 && w.ctr != Stop(h) {
      SeenNext(slots, h, w.ctr, w.ent);
    } else {
      assert WasUsed(slots[h]);
      SecondPassEnd(slots, h, w.ctr, w.ent);
    }
  }

  lemma AgainGoes(c: Config, slots: seq<Slot>, word: int, t: nat, op: Op, ctr: nat, e: nat) returns (w': Work)
    requires Quiet(c, slots, op) && ctr < |slots| && e < |slots|
    ensures w' == if slots[e].key != 0 && ctr != Stop(c.home(op.key))
                  then AgainTake(Succ(ctr, |slots|), Succ(ctr, |slots|)) else Choose(e)
    ensures LockNext(c, WithLock(slots, Again(ctr, e), t), word, t, op, c.home(op.key), Again(ctr, e))
         == Go(WithLock(slots, w', t), word, w')
  {
    w' := if slots[e].key != 0 && ctr != Stop(c.home(op.key))
          then AgainTake(Succ(ctr, |slots|), Succ(ctr, |slots|)) else Choose(e);
    Unlocked(slots, e, t);
  }

  /** The second pass ends at a free slot, or else it has seen all slots but the home slot. */
  lemma SecondPassEnd(slots: seq<Slot>, h: nat, ctr: nat, e: nat)
    requires 0 < h < |slots| && SecondPass(slots, h, ctr, e) && WasUsed(slots[h])
    requires slots[e].key == 0 || ctr == Stop(h)
    ensures slots[e].key == 0 || Crowded(slots, h)
    ensures Crowded(slots, h) ==> e == h - 1
  {
  }

  lemma SeenNext(slots: seq<Slot>, h: nat, ctr: nat, e: nat)
    requires 0 < h < |slots| && SecondPass(slots, h, ctr, e) && slots[e].key != 0 && ctr != Stop(h)
    ensures Succ(ctr, |slots|) != h && Dist(h, Succ(ctr, |slots|), |slots|) == Dist(h, ctr, |slots|) + 1
    ensures SecondPass(slots, h, Succ(ctr, |slots|), Succ(ctr, |slots|))
  {
    forall p | 0 <= p < |slots| && 0 < Dist(h, p, |slots|) == Dist(h, ctr, |slots|) ensures p == e {
    }
  }

  lemma SecondPassTake(c: Config, slots: seq<Slot>, word: int, t: nat, op: Op, w: Work)
    requires Quiet(c, slots, op) && Passed(slots, c.home(op.key), w) && w.AgainTake?
    ensures PassGoes(slots, c.home(op.key), t, word, w,
        LockNext(c, WithLock(slots, w, t), word, t, op, c.home(op.key), w))
  {
  }

  lemma PassStep(c: Config, slots: seq<Slot>, word: int, t: nat, op: Op, w: Work)
    requires Quiet(c, slots, op) && Passed(slots, c.home(op.key), w)
    ensures InBounds(w, |slots|)
    ensures PassGoes(slots, c.home(op.key), t, word, w, WorkNext(c, WithLock(slots, w, t), word, t, op, w))
  {
    if w.Take? || w.Test? {
      FirstPassStep(c, slots, word, t, op, w);
    } else if w.Again? {
      SecondPassStep(c, slots, word, t, op, w);
    } else {
      SecondPassTake(c, slots, word, t, op, w);
    }
  }

  lemma {:induction false} ReachesLast(c: Config, slots: seq<Slot>, word: int, t: nat, op: Op, w: Work) returns (n: nat)
    requires Quiet(c, slots, op) && Passed(slots, c.home(op.key), w)
    requires c.home(op.key) != 0 && Crowded(slots, c.home(op.key))
    ensures TakesAt(Solo(c, Go(WithLock(slots, w, t), word, w), t, op, n), c.home(op.key) - 1)
    decreases Togo(|slots|, c.home(op.key), w)
  {
    PassStep(c, slots, word, t, op, w);
    var next := WorkNext(c, WithLock(slots, w, t), word, t, op, w);
    if next.w.Choose? {
      n := 1;
      assert Solo(c, next, t, op, 0) == next;
    } else {
      PassedFits(slots, c.home(op.key), w, next.w);
      var m := ReachesLast(c, slots, word, t, op, next.w);
      n := m + 1;
    }
  }

  lemma PassedFits(slots: seq<Slot>, h: nat, w: Work, w': Work)
    requires h < |slots| && Passed(slots, h, w) && Passed(slots, h, w')
    ensures Togo(|slots|, h, w) >= 0 && Togo(|slots|, h, w') >= 0
  {
  }

  /** Behind the choice of the slot no other is chosen. */
  predicate Chosen(w: Work) {
    w.Upd? || w.Ins? || w.Pur? || w.Miss? || w.Count?
  }

  lemma {:induction false} ChosenOnce(c: Config, slots: seq<Slot>, word: int, t: nat, op: Op, w: Work, n: nat, e: nat)
    requires Chosen(w)
    ensures !TakesAt(Solo(c, Go(slots, word, w), t, op, n), e)
    decreases n
  {
    if n > 0 && InBounds(w, |slots|) {
      var next := WriteNext(slots, word, op, w);
      if next.Go? {
        ChosenOnce(c, next.slots, next.word, t, op, next.w, n - 1, e);
      }
    }
  }

  lemma {:induction false} TakesFree(c: Config, slots: seq<Slot>, word: int, t: nat, op: Op, w: Work, n: nat, e: nat)
    requires Quiet(c, slots, op) && Passed(slots, c.home(op.key), w)
    requires !(c.home(op.key) != 0 && Crowded(slots, c.home(op.key)))
    requires TakesAt(Solo(c, Go(WithLock(slots, w, t), word, w), t, op, n), e)
    ensures e < |slots| && slots[e].key == 0
    decreases n
  {
    assert n > 0;
    PassStep(c, slots, word, t, op, w);
    var next := WorkNext(c, WithLock(slots, w, t), word, t, op, w);
    if next.w.Choose? {
      AfterChoice(c, next, t, op, n - 1, e);
    } else {
      TakesFree(c, slots, word, t, op, next.w, n - 1, e);
    }
  }

  lemma AfterChoice(c: Config, next: Next, t: nat, op: Op, n: nat, e: nat)
    requires next.Go? && next.w.Choose? && TakesAt(Solo(c, next, t, op, n), e)
    ensures e == next.w.ent
  {
    if n > 0 && InBounds(next.w, |next.slots|) {
      var after := WorkNext(c, next.slots, next.word, t, op, next.w);
      ChosenOnce(c, after.slots, after.word, t, op, after.w, n - 1, e);
    }
  }
}
