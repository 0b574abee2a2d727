/** What a probe can rely on while other threads change the table. */
module HashProbe {
  import opened Options
  import opened HashSpec
  import opened HashTable

  // ----- some slot was never used

  /** The numbers below n. */
  ghost function Range(n: nat): (r: set<nat>)
    ensures |r| == n && forall p: nat :: p in r <==> p < n
  {
    if n == 0 then {} else Range(n - 1) + {n - 1}
  }

  lemma SubsetSize<T>(a: set<T>, b: set<T>)
    requires a <= b
    ensures |a| <= |b|
  {
    assert b == a + (b - a);
  }

  /** There are fewer fresh PUTs in the whole input than slots. */
  lemma NeverFull(c: Config, s: Table) returns (p: nat)
    requires Usable(c) && |s.slots| == c.size && Frugal(c, s)
    ensures p < |s.slots| && !NonVirgin(s.slots[p])
  {
    SubsetSize(s.minted, FreshPuts(c.ops));
    assert TakenSlots(s.slots) != Range(c.size);
    p :| p in Range(c.size) && p !in TakenSlots(s.slots);
  }

  /** A probe that meets a used slot with another key is not at the stop test's slot, and
      its next slot is one further on: with an unused slot left it cannot come round. */
  lemma Advance(slots: seq<Slot>, h: nat, key: nat, ctr: nat, p: nat)
    requires h < |slots| <= MAX_SIZE && ctr < |slots| && p < |slots| && !NonVirgin(slots[p])
    requires Probed(slots, h, key, ctr) && NonVirgin(slots[ctr]) && slots[ctr].key != key
    ensures ctr != Stop(h)
    ensures Dist(h, Succ(ctr, |slots|), |slots|) == Dist(h, ctr, |slots|) + 1
    ensures Probed(slots, h, key, Succ(ctr, |slots|))
    ensures ChainTo(slots, h, ctr) && WasUsed(slots[ctr]) ==> ChainTo(slots, h, Succ(ctr, |slots|))
  {
    assert Dist(h, p, |slots|) >= Dist(h, ctr, |slots|);
    assert p != ctr;
    forall q | 0 <= q < |slots| && Dist(h, q, |slots|) < Dist(h, Succ(ctr, |slots|), |slots|)
      ensures NonVirgin(slots[q]) && slots[q].key != key
      ensures ChainTo(slots, h, ctr) && WasUsed(slots[ctr]) ==> WasUsed(slots[q])
    {
      if Dist(h, q, |slots|) >= Dist(h, ctr, |slots|) {
        assert q == ctr;
      }
    }
  }

  /** A key whose probe has reached a slot that was never used is not in the table, even if
      the slot is being opened for another key. */
  lemma EndOfChain(c: Config, slots: seq<Slot>, key: nat, ctr: nat)
    requires ctr < |slots| && Chains(c, slots) && key != 0
    requires Probed(slots, c.home(key), key, ctr) && slots[ctr].key == 0 && !WasUsed(slots[ctr])
    ensures Absent(slots, key)
  {
    forall p | 0 <= p < |slots| ensures slots[p].key != key {
      var h := c.home(key);
      if slots[p].key == key {
        assert ChainTo(slots, h, p);
        assert Dist(h, p, |slots|) <= Dist(h, ctr, |slots|);
        SameDist(h, p, ctr, |slots|);
      }
    }
  }

  lemma SameDist(h: nat, p: nat, q: nat, size: nat)
    requires p < size && q < size && Dist(h, p, size) == Dist(h, q, size)
    ensures p == q
  {
  }

  // ----- what one thread's write leaves true for the others

  /** The change of one slot by a thread that works on key: only the owner, or else the
      content of a slot that is unused or holds the key.  Used slots stay used, and
      tombstones stay as they are. */
  predicate Evolves(a: Slot, b: Slot, key: nat) {
    && (NonVirgin(a) ==> NonVirgin(b))
    && (WasUsed(a) ==> WasUsed(b))
    && (Tomb(a) ==> Tomb(b))
    && (b == a.(owner := b.owner)
        || ((a.key == 0 || a.key == key) && (b.key == 0 || b.key == key)))
  }

  lemma ChainStable(slots: seq<Slot>, p: nat, b: Slot, key: nat, h: nat, q: nat)
    requires p < |slots| && Evolves(slots[p], b, key) && ChainTo(slots, h, q)
    ensures ChainTo(slots[p := b], h, q)
  {
  }

  lemma ProbedStable(slots: seq<Slot>, p: nat, b: Slot, key: nat, h: nat, mine: nat, q: nat)
    requires p < |slots| && Evolves(slots[p], b, key) && mine != key && mine != 0
    requires Probed(slots, h, mine, q)
    ensures Probed(slots[p := b], h, mine, q)
  {
  }

  lemma AbsentStable(slots: seq<Slot>, p: nat, b: Slot, key: nat, mine: nat)
    requires p < |slots| && Evolves(slots[p], b, key) && mine != key && mine != 0
    ensures Absent(slots, mine) <==> Absent(slots[p := b], mine)
  {
    if Absent(slots[p := b], mine) {
      forall q | 0 <= q < |slots| ensures slots[q].key != mine {
        assert slots[p := b][q].key != mine;
      }
    }
  }

  lemma InTableStable(slots: seq<Slot>, p: nat, b: Slot, am: map<nat, Entry>, am': map<nat, Entry>, key: nat, mine: nat)
    requires p < |slots| && Evolves(slots[p], b, key) && mine != key && mine != 0
    requires Lookup(am, mine) == Lookup(am', mine)
    requires InTable(slots, am, mine)
    ensures InTable(slots[p := b], am', mine)
  {
    AbsentStable(slots, p, b, key, mine);
  }

  /** What a thread knows survives another thread's step. */
  lemma KnowsStable(slots: seq<Slot>, p: nat, b: Slot, am: map<nat, Entry>, am': map<nat, Entry>, key: nat, op: Op,
                    h: nat, w: Work, i: nat)
    requires p < |slots| && Evolves(slots[p], b, key) && op.key != key && op.key != 0
    requires b == slots[p].(owner := b.owner) || Holding(Job(i, w)) != Some(p)
    requires Lookup(am, op.key) == Lookup(am', op.key)
    requires InBounds(w, |slots|) && Knows(slots, am, op, h, w)
    ensures Knows(slots[p := b], am', op, h, w)
  {
    if InTable(slots, am, op.key) {
      InTableStable(slots, p, b, am, am', key, op.key);
    }
    if w.Key1? || w.Id? || w.Key2? || w.Take? || w.Test? {
      ProbeStable(slots, p, b, am, am', key, op, h, w);
    } else {
      RestStable(slots, p, b, am, am', key, op, h, w, i);
    }
  }

  /** On the way ... */
  lemma ProbeStable(slots: seq<Slot>, p: nat, b: Slot, am: map<nat, Entry>, am': map<nat, Entry>, key: nat, op: Op,
                    h: nat, w: Work)
    requires p < |slots| && Evolves(slots[p], b, key) && op.key != key && op.key != 0
    requires w.Key1? || w.Id? || w.Key2? || w.Take? || w.Test?
    requires w.Test? ==> b == slots[p].(owner := b.owner) || w.ctr != p
    requires InBounds(w, |slots|) && Knows(slots, am, op, h, w) && InTable(slots[p := b], am', op.key)
    ensures Knows(slots[p := b], am', op, h, w)
  {
    AbsentStable(slots, p, b, key, op.key);
    ProbedStable(slots, p, b, key, h, op.key, w.ctr);
    if w.Take? || w.Test? {
      ChainStable(slots, p, b, key, h, w.ctr);
    }
  }

  /** ... and behind it. */
  lemma RestStable(slots: seq<Slot>, p: nat, b: Slot, am: map<nat, Entry>, am': map<nat, Entry>, key: nat, op: Op,
                   h: nat, w: Work, i: nat)
    requires p < |slots| && Evolves(slots[p], b, key) && op.key != key && op.key != 0
    requires b == slots[p].(owner := b.owner) || Holding(Job(i, w)) != Some(p)
    requires Lookup(am, op.key) == Lookup(am', op.key)
    requires !(w.Key1? || w.Id? || w.Key2? || w.Take? || w.Test?)
    requires InBounds(w, |slots|) && Knows(slots, am, op, h, w)
        && (InTable(slots, am, op.key) ==> InTable(slots[p := b], am', op.key))
    ensures Knows(slots[p := b], am', op, h, w)
  {
    AbsentStable(slots, p, b, key, op.key);
    match w
    case Again(_, e) => SuitableStable(slots, p, b, key, op, h, e);
    case Choose(e) => SuitableStable(slots, p, b, key, op, h, e);
    case Ins(e, _) => ChainStable(slots, p, b, key, h, e);
    case _ =>
  }

  lemma SuitableStable(slots: seq<Slot>, p: nat, b: Slot, key: nat, op: Op, h: nat, e: nat)
    requires p < |slots| && e < |slots| && Evolves(slots[p], b, key) && op.key != key && op.key != 0
    requires b == slots[p].(owner := b.owner) || e != p
    requires Suitable(slots, op, h, e)
    ensures Suitable(slots[p := b], op, h, e)
  {
    AbsentStable(slots, p, b, key, op.key);
    if ChainTo(slots, h, e) {
      ChainStable(slots, p, b, key, h, e);
    }
  }
}
