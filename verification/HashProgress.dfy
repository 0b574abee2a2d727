/** Every run of the parallel hash program comes to an end, and nothing but the exit of all
    threads ends it. */
module HashProgress {
  import opened Options
  import opened Words
  import opened HashSpec
  import opened HashSystem
  import opened HashTheorems
  import G = Gate
  import T = HashTable
  import P = HashProbe
  import I = HashInvariant
  import S = HashSteps

  // ----- progress

  /** How many of its own steps a thread still needs at most. */
  function Left(size: nat, h: nat, w: T.Work): int {
    match w
    case Key1(k) => 3 * (size - T.Dist(h, k, size)) + 10
    case Id(k) => 3 * (size - T.Dist(h, k, size)) + 9
    case Key2(k) => 3 * (size - T.Dist(h, k, size)) + 8
    case Guard => 2 * size + 11
    case Take(k) => 2 * (size - T.Dist(h, k, size)) + 10
    case Test(k) => 2 * (size - T.Dist(h, k, size)) + 9
    case Again(_, _) => 9
    case AgainTake(_, _) => 10
    case _ => T.Rest(w)
  }

  lemma LeftBounds(size: nat, h: nat, w: T.Work)
    requires h < size && T.InBounds(w, size)
    ensures 0 <= Left(size, h, w) <= 3 * size + 11
    ensures !w.Crash? ==> Left(size, h, w) > 0
  {
  }

  /** Each step of a thread inside its operation brings it nearer to the end, whatever the
      others have done to the table, and the end is less than 3 * table_size + 12 steps
      away: no probe passes a slot twice, not even from slot 0, where the loop's own stop
      test cannot hold. */
  lemma ProbesEnd(c: T.Config, s: T.Table, t: nat, s': T.Table, res: Option<Result>)
    requires T.Usable(c) && T.Inv(c, s) && T.Step(c, s, t, s', res)
    ensures res == None ==> s'.jobs[t].Job? && s'.jobs[t].i == s.jobs[t].i
    ensures var h := c.home(c.ops[s.jobs[t].i].key);
            && 0 < Left(c.size, h, s.jobs[t].w) <= 3 * c.size + 11
            && (res == None ==> 0 <= Left(c.size, h, s'.jobs[t].w) < Left(c.size, h, s.jobs[t].w))
  {
    assert T.JobOk(c, s, t);
    var virgin := P.NeverFull(c, s);
    I.UsedBounds(c, s);
    var i, w := s.jobs[t].i, s.jobs[t].w;
    var h := c.home(c.ops[i].key);
    LeftBounds(c.size, h, w);
    assert T.Holding(s.jobs[t]) == T.Holding(T.Job(0, w));
    WorkNearer(c, s.slots, s.word, s.am, t, i, w, virgin);
    if res == None {
      LeftBounds(c.size, h, s'.jobs[t].w);
    }
  }

  /** The step comes nearer to the end. */
  ghost predicate Nearer(size: nat, h: nat, w: T.Work, next: T.Next) {
    next.Go? ==> |next.slots| == size && T.InBounds(next.w, size) && Left(size, h, next.w) < Left(size, h, w)
  }

  lemma WorkNearer(c: T.Config, slots: seq<T.Slot>, word: int, am: map<nat, Entry>, t: nat, i: nat, w: T.Work,
                   virgin: nat)
    requires S.Base(c, slots, i, w, virgin) && T.Knows(slots, am, c.ops[i], c.home(c.ops[i].key), w)
    requires w.Guard? ==> word % W32 < c.size
    ensures Nearer(c.size, c.home(c.ops[i].key), w, T.WorkNext(c, slots, word, t, c.ops[i], w))
  {
    match w
    case Test(e) => TestNearer(c, slots, word, am, t, i, e, virgin);
    case Upd(_, _) => WriteNearer(c, slots, word, i, w, virgin);
    case Ins(_, _) => WriteNearer(c, slots, word, i, w, virgin);
    case Pur(_, _) => WriteNearer(c, slots, word, i, w, virgin);
    case Miss(_) => WriteNearer(c, slots, word, i, w, virgin);
    case Count(_, _) => WriteNearer(c, slots, word, i, w, virgin);
    case Guard => LockNearer(c, slots, word, am, t, i, w, virgin);
    case Take(_) => LockNearer(c, slots, word, am, t, i, w, virgin);
    case Again(_, _) => LockNearer(c, slots, word, am, t, i, w, virgin);
    case AgainTake(_, _) => LockNearer(c, slots, word, am, t, i, w, virgin);
    case DelTake(_) => LockNearer(c, slots, word, am, t, i, w, virgin);
    case Choose(_) => LockNearer(c, slots, word, am, t, i, w, virgin);
    case Crash =>
    case _ => ReadNearer(c, slots, word, am, i, w, virgin);
  }

  lemma WriteNearer(c: T.Config, slots: seq<T.Slot>, word: int, i: nat, w: T.Work, virgin: nat)
    requires S.Base(c, slots, i, w, virgin)
    requires w.Upd? || w.Ins? || w.Pur? || w.Miss? || w.Count?
    ensures Nearer(c.size, c.home(c.ops[i].key), w, T.WriteNext(slots, word, c.ops[i], w))
  {
  }

  lemma ReadNearer(c: T.Config, slots: seq<T.Slot>, word: int, am: map<nat, Entry>, i: nat, w: T.Work, virgin: nat)
    requires S.Base(c, slots, i, w, virgin) && T.Knows(slots, am, c.ops[i], c.home(c.ops[i].key), w)
    requires w.Key1? || w.Id? || w.Key2? || w.Hit? || w.Len? || w.Data?
    ensures Nearer(c.size, c.home(c.ops[i].key), w, T.ReadNext(slots, word, c.ops[i], c.home(c.ops[i].key), w))
  {
    var key := c.ops[i].key;
    if w.Key2? && slots[w.ctr].key != key {
      P.Advance(slots, c.home(key), key, w.ctr, virgin);
    }
  }

  lemma TestNearer(c: T.Config, slots: seq<T.Slot>, word: int, am: map<nat, Entry>, t: nat, i: nat, e: nat, virgin: nat)
    requires S.Base(c, slots, i, T.Test(e), virgin) && T.Knows(slots, am, c.ops[i], c.home(c.ops[i].key), T.Test(e))
    ensures Nearer(c.size, c.home(c.ops[i].key), T.Test(e),
        T.LockNext(c, slots, word, t, c.ops[i], c.home(c.ops[i].key), T.Test(e)))
  {
    var key := c.ops[i].key;
    if T.NonVirgin(slots[e]) && slots[e].key != key {
      P.Advance(slots, c.home(key), key, e, virgin);
    }
  }

  lemma LockNearer(c: T.Config, slots: seq<T.Slot>, word: int, am: map<nat, Entry>, t: nat, i: nat, w: T.Work,
                   virgin: nat)
    requires S.Base(c, slots, i, w, virgin) && T.Knows(slots, am, c.ops[i], c.home(c.ops[i].key), w)
    requires w.Guard? ==> word % W32 < c.size
    requires w.Guard? || w.Take? || w.Again? || w.AgainTake? || w.DelTake? || w.Choose?
    ensures Nearer(c.size, c.home(c.ops[i].key), w, T.LockNext(c, slots, word, t, c.ops[i], c.home(c.ops[i].key), w))
  {
  }

  /** If any thread is inside the table, some thread inside can take a step: a lock that is
      waited for is held by a thread that waits for nothing. */
  lemma SomebodyInside(c: T.Config, s: T.Table, t: nat) returns (u: nat, s': T.Table, res: Option<Result>)
    requires T.Usable(c) && T.Inv(c, s) && t < |s.jobs| && s.jobs[t].Job?
    ensures T.Step(c, s, u, s', res)
  {
    u := Unlocked(c, s, t);
    s', res := Perform(c, s, u);
  }

  ghost predicate Free(c: T.Config, s: T.Table, t: nat) {
    && t < |s.jobs| && s.jobs[t].Job? && s.jobs[t].i < |c.ops| && T.InBounds(s.jobs[t].w, |s.slots|)
    && !T.WorkNext(c, s.slots, s.word, t, c.ops[s.jobs[t].i], s.jobs[t].w).Blocked?
  }

  lemma Unlocked(c: T.Config, s: T.Table, t: nat) returns (u: nat)
    requires T.Locks(s) && T.JobsOk(c, s) && t < |s.jobs| && s.jobs[t].Job?
    ensures Free(c, s, u)
  {
    assert T.JobOk(c, s, t);
    u := t;
    if !Free(c, s, t) {
      var e := WaitsFor(c, s, t);
      u := s.slots[e].owner.value;
      assert T.JobOk(c, s, u);
      HolderReady(c, s, u);
    }
  }

  lemma WaitsFor(c: T.Config, s: T.Table, t: nat) returns (e: nat)
    requires t < |s.jobs| && s.jobs[t].Job? && T.JobOk(c, s, t) && !Free(c, s, t)
    ensures e < |s.slots| && s.slots[e].owner.Some?
  {
    e := if s.jobs[t].w.Take? then s.jobs[t].w.ctr else s.jobs[t].w.ent;
  }

  lemma HolderReady(c: T.Config, s: T.Table, u: nat)
    requires u < |s.jobs| && T.JobOk(c, s, u) && T.Holding(s.jobs[u]).Some?
    ensures Free(c, s, u)
  {
  }

  lemma Perform(c: T.Config, s: T.Table, t: nat) returns (s': T.Table, res: Option<Result>)
    requires Free(c, s, t)
    ensures T.Step(c, s, t, s', res)
  {
    var i, w := s.jobs[t].i, s.jobs[t].w;
    match T.WorkNext(c, s.slots, s.word, t, c.ops[i], w)
    case Go(slots, word, w') =>
      res := None;
      s' := T.Table(slots, word, s.jobs[t := T.Job(i, w')], s.am,
                    if T.Mints(c.ops[i], w) then s.minted + {i} else s.minted);
    case Done(slots, word, r) =>
      res := Some(r);
      s' := T.Table(slots, word, s.jobs[t := T.Idle], Apply(s.am, c.ops[i]), s.minted);
  }

  /** No reachable state is a deadlock: unless all threads have exited, one of them has a
      step, and not just a spurious wakeup. */
  lemma NoDeadlock(c: T.Config, threads: nat, ss: seq<Sys>) returns (t: nat, s': Sys)
    requires Usable(c) && threads <= G.THREADS && Run(c, threads, ss)
    requires |Last(ss).g.phases| > 0 && !AllExited(Last(ss))
    ensures Step(c, Last(ss), t, s') && !Wakes(Last(ss), t, s')
  {
    var s := Last(ss);
    RunInv(c, threads, ss);
    t, s' := Unblocked(c, s);
  }

  lemma Unblocked(c: T.Config, s: Sys) returns (t: nat, s': Sys)
    requires Inv(c, s) && Usable(c) && |s.g.phases| > 0 && !AllExited(s)
    ensures Step(c, s, t, s') && !Wakes(s, t, s')
  {
    var u := Movable(c, s);
    t := u;
    if G.CanAct(s.g, u) {
      s' := GateMove(c, s, u);
    } else {
      t, s' := TableMove(c, s, u);
    }
  }

  lemma Movable(c: T.Config, s: Sys) returns (u: nat)
    requires G.Inv(c.ops, s.g) && |s.g.phases| > 0 && !AllExited(s)
    ensures u < |s.g.phases| && (G.CanAct(s.g, u) || s.g.phases[u].Run?)
  {
    var x :| 0 <= x < |s.g.phases| && !s.g.phases[x].Exited?;
    if forall v :: 0 <= v < |s.g.phases| ==> !G.CanAct(s.g, v) && !s.g.phases[v].Run? {
      G.NoDeadlock(c.ops, s.g, x);
    }
    u :| u < |s.g.phases| && (G.CanAct(s.g, u) || s.g.phases[u].Run?);
  }

  lemma GateMove(c: T.Config, s: Sys, u: nat) returns (s': Sys)
    requires Inv(c, s) && Usable(c) && u < |s.g.phases| && G.CanAct(s.g, u)
    ensures Step(c, s, u, s') && !Wakes(s, u, s')
  {
    var g' := G.CanActSteps(c.ops, s.g, u);
    s' := s.(g := g');
    if s.g.phases[u] == G.Scan(G.THREADS) {
      Ready(c, s, u);
      var op := c.ops[s.g.mine[u]];
      s' := s'.(tab := s.tab.(jobs := s.tab.jobs[u := T.Job(s.g.mine[u], T.Start(op, c.home(op.key)))]));
    }
    assert AtGate(c, s, u, s');
  }

  lemma TableMove(c: T.Config, s: Sys, u: nat) returns (t: nat, s': Sys)
    requires Inv(c, s) && Usable(c) && u < |s.g.phases| && s.g.phases[u].Run?
    ensures Step(c, s, t, s') && !Wakes(s, t, s')
  {
    var tab', res;
    t, tab', res := SomebodyInside(c, s.tab, u);
    if res.Some? {
      s' := ReturnMove(c, s, t, tab', res.value);
    } else {
      s' := s.(tab := tab');
      assert Inside(c, s, t, s');
      Moves(c, s, t, tab', None);
    }
  }

  lemma ReturnMove(c: T.Config, s: Sys, t: nat, tab': T.Table, r: Result) returns (s': Sys)
    requires G.Shape(c.ops, s.g) && Agree(s) && T.Step(c, s.tab, t, tab', Some(r))
    ensures Step(c, s, t, s') && !Wakes(s, t, s')
  {
    Moves(c, s, t, tab', Some(r));
    var i := s.g.mine[t];
    var g' := s.g.(phases := s.g.phases[t := G.AtDone], done := s.g.done + {i});
    s' := Sys(g', tab', s.results[i := r], s.front[c.ops[i].key := i + 1]);
    assert Returns(c, s, t, s', r);
  }

  lemma Moves(c: T.Config, s: Sys, t: nat, tab': T.Table, res: Option<Result>)
    requires Agree(s) && T.Step(c, s.tab, t, tab', res)
    ensures t < |s.g.phases| && s.g.phases[t].Run? && s.g.mine[t] < |c.ops|
    ensures tab' != s.tab
  {
  }
}
