/** What every step of the hash table keeps true of the table as a whole. */
module HashGlobal {
  import opened Options
  import opened HashSpec
  import opened HashTable
  import opened HashProbe

  /** The slot that a step may write. */
  function Site(w: Work): nat {
    match w
    case Take(e) => e
    case Test(e) => e
    case Again(_, e) => e
    case AgainTake(_, e) => e
    case DelTake(e) => e
    case Choose(e) => e
    case Upd(e, _) => e
    case Ins(e, _) => e
    case Pur(e, _) => e
    case Miss(e) => e
    case _ => 0
  }

  /** A step of thread t from work w to job' changes slot a to b: the lock is taken,
      dropped, or stays as it is; a key appears in the third assignment of an insertion
      and disappears in the second one of a purge. */
  predicate Changes(a: Slot, b: Slot, p: nat, t: nat, op: Op, w: Work, job': Job) {
    && Evolves(a, b, op.key)
    && (b == a.(owner := b.owner) || (b == b.(owner := a.owner) && Holding(Job(0, w)) == Some(p)))
    && (if b.owner == a.owner then Holding(job') == Holding(Job(0, w))
        else if b.owner == Some(t) then a.owner == None && Holding(Job(0, w)) == None && Holding(job') == Some(p)
        else b.owner == None && Holding(Job(0, w)) == Some(p) && Holding(job') == None)
    && (if w.Ins? && w.n == 2 then p == w.ent && a.key == 0 && b.key == op.key && !WasUsed(a)
        else if w.Pur? && w.n == 1 then p == w.ent && a.key == op.key && b.key == 0
        else b.key == a.key && WasUsed(b) == WasUsed(a))
    && (if Mints(op, w) then NonVirgin(b) && NonVirgin(a) == Minted(op, w) else NonVirgin(b) == NonVirgin(a))
    && (if w.Ins? then b.opening == Opens(job', p) else b.opening ==> a.opening)
  }

  ghost predicate Shaped(slots: seq<Slot>, word: int, t: nat, op: Op, w: Work, next: Next)
    requires InBounds(w, |slots|) && 0 < |slots|
  {
    var p := Site(w);
    match next
    case Blocked => true
    case Go(slots', word', w') =>
      && |slots'| == |slots| && slots' == slots[p := slots'[p]] && word' == word && !w.Count?
      && Changes(slots[p], slots'[p], p, t, op, w, Job(0, w'))
      && Wrote(w') == (Wrote(w) || (w.Ins? && w.n == 2)) && Minted(op, w') == (Minted(op, w) || Mints(op, w))
      && ToSubtract(Job(0, w')) == (ToSubtract(Job(0, w)) || (w.Pur? && w.n == 1))
    case Done(slots', word', _) =>
      && |slots'| == |slots| && slots' == slots[p := slots'[p]]
      && word' == (if w.Count? then AddWord(word, w.delta) else word)
      && Changes(slots[p], slots'[p], p, t, op, w, Idle)
      && !(w.Ins? || w.Pur?)
  }

  lemma ReadShaped(slots: seq<Slot>, word: int, t: nat, op: Op, h: nat, w: Work)
    requires InBounds(w, |slots|) && 0 < |slots| && (w.Key1? || w.Id? || w.Key2? || w.Hit? || w.Len? || w.Data?)
    ensures Shaped(slots, word, t, op, w, ReadNext(slots, word, op, h, w))
  {
  }

  lemma LockShaped(c: Config, slots: seq<Slot>, word: int, t: nat, op: Op, h: nat, w: Work)
    requires InBounds(w, |slots|) && 0 < |slots|
    requires w.Guard? || w.Take? || w.Test? || w.Again? || w.AgainTake? || w.DelTake? || w.Choose?
    requires Holding(Job(0, w)).Some? ==> slots[Site(w)].owner == Some(t)
    ensures Shaped(slots, word, t, op, w, LockNext(c, slots, word, t, op, h, w))
  {
  }

  lemma WriteShaped(slots: seq<Slot>, word: int, am: map<nat, Entry>, t: nat, op: Op, h: nat, w: Work)
    requires InBounds(w, |slots|) && 0 < |slots| && op.key != 0
    requires w.Upd? || w.Ins? || w.Pur? || w.Miss? || w.Count?
    requires Holding(Job(0, w)).Some? ==> slots[Site(w)].owner == Some(t)
    requires Knows(slots, am, op, h, w)
    ensures Shaped(slots, word, t, op, w, WriteNext(slots, word, op, w))
  {
  }

  lemma WorkShaped(c: Config, slots: seq<Slot>, word: int, am: map<nat, Entry>, t: nat, op: Op, w: Work)
    requires InBounds(w, |slots|) && 0 < |slots| && op.key != 0
    requires Holding(Job(0, w)).Some? ==> slots[Site(w)].owner == Some(t)
    requires Knows(slots, am, op, c.home(op.key), w)
    ensures Shaped(slots, word, t, op, w, WorkNext(c, slots, word, t, op, w))
  {
    var h := c.home(op.key);
    match w
    case Key1(_) => ReadShaped(slots, word, t, op, h, w);
    case Id(_) => ReadShaped(slots, word, t, op, h, w);
    case Key2(_) => ReadShaped(slots, word, t, op, h, w);
    case Hit(_) => ReadShaped(slots, word, t, op, h, w);
    case Len(_) => ReadShaped(slots, word, t, op, h, w);
    case Data(_, _) => ReadShaped(slots, word, t, op, h, w);
    case Upd(_, _) => WriteShaped(slots, word, am, t, op, h, w);
    case Ins(_, _) => WriteShaped(slots, word, am, t, op, h, w);
    case Pur(_, _) => WriteShaped(slots, word, am, t, op, h, w);
    case Miss(_) => WriteShaped(slots, word, am, t, op, h, w);
    case Count(_, _) => WriteShaped(slots, word, am, t, op, h, w);
    case Crash =>
    case _ => LockShaped(c, slots, word, t, op, h, w);
  }
}
