/** Every step of a thread keeps what the thread knows true, and ends with the right
    result. */
module HashSteps {
  import opened Options
  import opened HashSpec
  import opened HashTable
  import opened Words
  import opened HashProbe

  /** The outcome of a step for the thread that takes it: it still knows what it has to,
      or it returns the answer of the map it started from, and the table agrees with the
      map at its key. */
  ghost predicate Sound(c: Config, slots: seq<Slot>, am: map<nat, Entry>, i: nat, next: Next)
    requires i < |c.ops|
  {
    var op := c.ops[i];
    match next
    case Blocked => true
    case Go(slots', _, w) =>
      InBounds(w, |slots'|) && KindFits(op.kind, w) && Knows(slots', am, op, c.home(op.key), w)
    case Done(slots', _, res) =>
      res == Answer(am, op) && InTable(slots', Apply(am, op), op.key)
  }

  /** What the other lemmas need of the state: the shape, and some slot never used. */
  ghost predicate Base(c: Config, slots: seq<Slot>, i: nat, w: Work, virgin: nat) {
    && 0 < |slots| <= MAX_SIZE && |slots| == c.size && i < |c.ops|
    && c.ops[i].key != 0 && c.home(c.ops[i].key) < |slots|
    && Unique(slots) && Chains(c, slots) && Blanks(slots)
    && virgin < |slots| && !NonVirgin(slots[virgin])
    && InBounds(w, |slots|) && KindFits(c.ops[i].kind, w)
    && (w.Test? ==> !slots[w.ctr].opening)
  }

  lemma ReadSound(c: Config, slots: seq<Slot>, word: int, am: map<nat, Entry>, i: nat, w: Work, virgin: nat)
    requires Base(c, slots, i, w, virgin) && Knows(slots, am, c.ops[i], c.home(c.ops[i].key), w)
    requires w.Key1? || w.Id? || w.Key2? || w.Hit? || w.Len? || w.Data?
    ensures Sound(c, slots, am, i, ReadNext(slots, word, c.ops[i], c.home(c.ops[i].key), w))
  {
    var op := c.ops[i];
    var h := c.home(op.key);
    match w
    case Key1(k) =>
      if slots[k].key == 0 && !WasUsed(slots[k]) {
        EndOfChain(c, slots, op.key, k);
      }
    case Key2(k) =>
      if slots[k].key != op.key {
        Advance(slots, h, op.key, k, virgin);
      }
    case _ =>
  }

  /** Taking or dropping a lock changes nothing that a thread knows. */
  lemma OwnerOnly(slots: seq<Slot>, am: map<nat, Entry>, op: Op, h: nat, e: nat, owner: Option<nat>, w: Work)
    requires e < |slots| && InBounds(w, |slots|) && Knows(slots, am, op, h, w)
    ensures Knows(slots[e := slots[e].(owner := owner)], am, op, h, w)
  {
    var slots' := slots[e := slots[e].(owner := owner)];
    assert forall p :: 0 <= p < |slots| ==> slots'[p] == slots[p].(owner := slots'[p].owner);
    assert Absent(slots, op.key) <==> Absent(slots', op.key) by {
      if Absent(slots', op.key) {
        forall q | 0 <= q < |slots| ensures slots[q].key != op.key {
          assert slots'[q].key != op.key;
        }
      }
    }
  }

  lemma LockSound(c: Config, slots: seq<Slot>, word: int, am: map<nat, Entry>, t: nat, i: nat, w: Work, virgin: nat)
    requires Base(c, slots, i, w, virgin) && Knows(slots, am, c.ops[i], c.home(c.ops[i].key), w)
    requires w.Guard? || w.Again? || w.AgainTake? || w.Choose?
    requires w.Guard? ==> word % W32 < c.size
    ensures Sound(c, slots, am, i, LockNext(c, slots, word, t, c.ops[i], c.home(c.ops[i].key), w))
  {
  }

  lemma TakeSound(c: Config, slots: seq<Slot>, word: int, am: map<nat, Entry>, t: nat, i: nat, w: Work, virgin: nat)
    requires Base(c, slots, i, w, virgin) && Knows(slots, am, c.ops[i], c.home(c.ops[i].key), w)
    requires w.Take? || w.DelTake?
    ensures Sound(c, slots, am, i, LockNext(c, slots, word, t, c.ops[i], c.home(c.ops[i].key), w))
  {
    var e := if w.Take? then w.ctr else w.ent;
    OwnerOnly(slots, am, c.ops[i], c.home(c.ops[i].key), e, Some(t), w);
  }

  lemma TestSound(c: Config, slots: seq<Slot>, word: int, am: map<nat, Entry>, t: nat, i: nat, e: nat, virgin: nat)
    requires Base(c, slots, i, Test(e), virgin) && Knows(slots, am, c.ops[i], c.home(c.ops[i].key), Test(e))
    ensures Sound(c, slots, am, i, LockNext(c, slots, word, t, c.ops[i], c.home(c.ops[i].key), Test(e)))
  {
    var op := c.ops[i];
    var h := c.home(op.key);
    if slots[e].key == op.key {
    } else if NonVirgin(slots[e]) {
      Advance(slots, h, op.key, e, virgin);
      OwnerOnly(slots, am, op, h, e, None, Take(Succ(e, |slots|)));
    } else {
      EndOfChain(c, slots, op.key, e);
    }
  }

  lemma UpdSound(c: Config, slots: seq<Slot>, word: int, am: map<nat, Entry>, i: nat, e: nat, n: nat, virgin: nat)
    requires Base(c, slots, i, Upd(e, n), virgin) && Knows(slots, am, c.ops[i], c.home(c.ops[i].key), Upd(e, n))
    ensures Sound(c, slots, am, i, WriteNext(slots, word, c.ops[i], Upd(e, n)))
  {
    if n == 3 {
      var slots' := slots[e := slots[e].(owner := None)];
      assert !Absent(slots', c.ops[i].key) by {
        assert slots'[e].key == c.ops[i].key;
      }
      assert forall p :: 0 <= p < |slots'| ==> slots'[p].key == slots[p].key;
    }
  }

  lemma InsSound(c: Config, slots: seq<Slot>, word: int, am: map<nat, Entry>, i: nat, e: nat, n: nat, virgin: nat)
    requires Base(c, slots, i, Ins(e, n), virgin) && Knows(slots, am, c.ops[i], c.home(c.ops[i].key), Ins(e, n))
    ensures Sound(c, slots, am, i, WriteNext(slots, word, c.ops[i], Ins(e, n)))
  {
  }

  lemma PurSound(c: Config, slots: seq<Slot>, word: int, am: map<nat, Entry>, i: nat, e: nat, n: nat, virgin: nat)
    requires Base(c, slots, i, Pur(e, n), virgin) && Knows(slots, am, c.ops[i], c.home(c.ops[i].key), Pur(e, n))
    ensures Sound(c, slots, am, i, WriteNext(slots, word, c.ops[i], Pur(e, n)))
  {
  }

  lemma ReturnSound(c: Config, slots: seq<Slot>, word: int, am: map<nat, Entry>, i: nat, w: Work, virgin: nat)
    requires Base(c, slots, i, w, virgin) && Knows(slots, am, c.ops[i], c.home(c.ops[i].key), w)
    requires w.Miss? || w.Count?
    ensures Sound(c, slots, am, i, WriteNext(slots, word, c.ops[i], w))
  {
    if w.Count? && w.delta == 1 {
      assert !Absent(slots, c.ops[i].key);
    }
  }

  /** All the steps together. */
  lemma WorkSound(c: Config, slots: seq<Slot>, word: int, am: map<nat, Entry>, t: nat, i: nat, w: Work, virgin: nat)
    requires Base(c, slots, i, w, virgin) && Knows(slots, am, c.ops[i], c.home(c.ops[i].key), w)
    requires w.Guard? ==> word % W32 < c.size
    ensures Sound(c, slots, am, i, WorkNext(c, slots, word, t, c.ops[i], w))
  {
    if w.Upd? || w.Ins? || w.Pur? || w.Miss? || w.Count? {
      WriteSound(c, slots, word, am, i, w, virgin);
    } else if w.Key1? || w.Id? || w.Key2? || w.Hit? || w.Len? || w.Data? {
      ReadSound(c, slots, word, am, i, w, virgin);
    } else if !w.Crash? {
      DecideSound(c, slots, word, am, t, i, w, virgin);
    }
  }

  lemma WriteSound(c: Config, slots: seq<Slot>, word: int, am: map<nat, Entry>, i: nat, w: Work, virgin: nat)
    requires Base(c, slots, i, w, virgin) && Knows(slots, am, c.ops[i], c.home(c.ops[i].key), w)
    requires w.Upd? || w.Ins? || w.Pur? || w.Miss? || w.Count?
    ensures Sound(c, slots, am, i, WriteNext(slots, word, c.ops[i], w))
  {
    match w
    case Upd(e, n) => UpdSound(c, slots, word, am, i, e, n, virgin);
    case Ins(e, n) => InsSound(c, slots, word, am, i, e, n, virgin);
    case Pur(e, n) => PurSound(c, slots, word, am, i, e, n, virgin);
    case _ => ReturnSound(c, slots, word, am, i, w, virgin);
  }

  lemma DecideSound(c: Config, slots: seq<Slot>, word: int, am: map<nat, Entry>, t: nat, i: nat, w: Work, virgin: nat)
    requires Base(c, slots, i, w, virgin) && Knows(slots, am, c.ops[i], c.home(c.ops[i].key), w)
    requires w.Guard? || w.Take? || w.Test? || w.Again? || w.AgainTake? || w.DelTake? || w.Choose?
    requires w.Guard? ==> word % W32 < c.size
    ensures Sound(c, slots, am, i, LockNext(c, slots, word, t, c.ops[i], c.home(c.ops[i].key), w))
  {
    if w.Test? {
      TestSound(c, slots, word, am, t, i, w.ctr, virgin);
    } else if w.Take? || w.DelTake? {
      TakeSound(c, slots, word, am, t, i, w, virgin);
    } else {
      LockSound(c, slots, word, am, t, i, w, virgin);
    }
  }
}
