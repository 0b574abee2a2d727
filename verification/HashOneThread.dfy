/** The program with one thread: it performs the stream one operation at a time, and has
    only one run. */
module HashOneThread {
  import opened Options
  import opened HashSpec
  import A = HashAlone
  import opened HashSystem
  import G = Gate
  import T = HashTable

  // ----- from one operation to the next

  /** The thread is about to take operation i. */
  ghost predicate Between(s: Sys, i: nat, slots: seq<T.Slot>, word: int) {
    && s.g.curr == i && s.g.holder == None && s.g.phases == [G.AtRead] && |s.g.busy| == |s.g.mine| == 1
    && s.tab.slots == slots && s.tab.word == word && s.tab.jobs == [T.Idle]
  }

  /** It has taken operation i, with nothing changed in the table. */
  ghost predicate Taken(s: Sys, i: nat, slots: seq<T.Slot>, word: int) {
    && s.g.curr == i + 1 && |s.g.phases| == 1 && s.g.mine == [i] && s.g.busy == [true]
    && s.tab.slots == slots && s.tab.word == word && s.tab.jobs == [T.Idle]
  }

  /** It is inside the table with operation i, as far as next says. */
  ghost predicate Within(s: Sys, i: nat, next: T.Next) {
    && next.Go? && s.g.curr == i + 1 && s.g.holder == None && s.g.phases == [G.Run] && s.g.mine == [i]
         && |s.g.busy| == 1
    && s.tab.slots == next.slots && s.tab.word == next.word && s.tab.jobs == [T.Job(i, next.w)]
  }

  lemma Extend(c: T.Config, ss: seq<Sys>, s': Sys) returns (rr: seq<Sys>)
    requires Run(c, 1, ss) && Step(c, Last(ss), 0, s')
    ensures rr == ss + [s'] && Run(c, 1, rr) && Last(rr) == s'
  {
    rr := ss + [s'];
    forall n | 0 <= n < |rr| - 1 ensures Next(c, rr[n], rr[n + 1]) {
      if n < |ss| - 1 {
        assert Next(c, ss[n], ss[n + 1]);
      }
    }
  }

  /** One step at the gate. */
  lemma AtGateStep(c: T.Config, ss: seq<Sys>, g': G.Gate) returns (rr: seq<Sys>)
    requires Run(c, 1, ss) && |Last(ss).g.phases| == |Last(ss).g.busy| == |Last(ss).g.mine| == 1
    requires G.Step(c.ops, Last(ss).g, 0, g') && Last(ss).g.phases[0] != G.Scan(G.THREADS)
    ensures Run(c, 1, rr) && Last(rr) == Last(ss).(g := g')
  {
    var s' := Last(ss).(g := g');
    assert AtGate(c, Last(ss), 0, s');
    rr := Extend(c, ss, s');
  }

  lemma Take(c: T.Config, ss: seq<Sys>, i: nat, slots: seq<T.Slot>, word: int) returns (rr: seq<Sys>)
    requires Run(c, 1, ss) && Between(Last(ss), i, slots, word) && i < |c.ops|
    ensures Run(c, 1, rr) && Taken(Last(rr), i, slots, word) && Last(rr).results == Last(ss).results
    ensures Last(rr).g.phases == [G.Scan(0)] && Last(rr).g.holder == Some(0)
  {
    var g := Last(ss).g;
    rr := AtGateStep(c, ss, g.(holder := Some(0), phases := [G.Fetch]));
    g := Last(rr).g;
    rr := AtGateStep(c, rr, g.(curr := i + 1, busy := [true], mine := [i], phases := [G.Scan(0)]));
  }

  /** Nobody else is in being_processed. */
  lemma {:induction false} ScanOn(c: T.Config, ss: seq<Sys>, i: nat, slots: seq<T.Slot>, word: int, u: nat)
      returns (rr: seq<Sys>)
    requires Run(c, 1, ss) && Taken(Last(ss), i, slots, word) && i < |c.ops|
    requires Last(ss).g.phases == [G.Scan(u)] && Last(ss).g.holder == Some(0) && u <= G.THREADS
    ensures Run(c, 1, rr) && Taken(Last(rr), i, slots, word) && Last(rr).results == Last(ss).results
    ensures Last(rr).g.phases == [G.Scan(G.THREADS)] && Last(rr).g.holder == Some(0)
    decreases G.THREADS - u
  {
    rr := ss;
    if u < G.THREADS {
      rr := AtGateStep(c, rr, Last(rr).g.(phases := [G.Scan(u + 1)]));
      rr := ScanOn(c, rr, i, slots, word, u + 1);
    }
  }

  /** Through the gate. */
  lemma Admit(c: T.Config, ss: seq<Sys>, i: nat, slots: seq<T.Slot>, word: int) returns (rr: seq<Sys>)
    requires Run(c, 1, ss) && Between(Last(ss), i, slots, word) && i < |c.ops|
    ensures Run(c, 1, rr) && Last(rr).results == Last(ss).results
    ensures Within(Last(rr), i, T.Go(slots, word, T.Start(c.ops[i], c.home(c.ops[i].key))))
  {
    rr := Take(c, ss, i, slots, word);
    rr := ScanOn(c, rr, i, slots, word, 0);
    var s := Last(rr);
    var g' := s.g.(holder := None, phases := [G.Run]);
    var tab' := s.tab.(jobs := [T.Job(i, T.Start(c.ops[i], c.home(c.ops[i].key)))]);
    assert AtGate(c, s, 0, s.(g := g', tab := tab'));
    rr := Extend(c, rr, s.(g := g', tab := tab'));
  }

  /** One step inside. */
  lemma GoOn(c: T.Config, ss: seq<Sys>, i: nat, next: T.Next, after: T.Next) returns (rr: seq<Sys>)
    requires Run(c, 1, ss) && i < |c.ops| && Within(Last(ss), i, next) && T.InBounds(next.w, |next.slots|)
    requires after == T.WorkNext(c, next.slots, next.word, 0, c.ops[i], next.w) && after.Go?
    ensures Run(c, 1, rr) && |rr| == |ss| + 1 && Within(Last(rr), i, after) && Last(rr).results == Last(ss).results
  {
    var s := Last(ss);
    var minted := if T.Mints(c.ops[i], next.w) then s.tab.minted + {i} else s.tab.minted;
    var tab' := T.Table(after.slots, after.word, [T.Job(i, after.w)], s.tab.am, minted);
    assert Inside(c, s, 0, s.(tab := tab'));
    rr := Extend(c, ss, s.(tab := tab'));
  }

  /** The call returns, and done_one follows. */
  lemma Leave(c: T.Config, ss: seq<Sys>, i: nat, next: T.Next, after: T.Next) returns (rr: seq<Sys>)
    requires Run(c, 1, ss) && i < |c.ops| && Within(Last(ss), i, next) && T.InBounds(next.w, |next.slots|)
    requires after == T.WorkNext(c, next.slots, next.word, 0, c.ops[i], next.w) && after.Done?
    ensures Run(c, 1, rr) && Between(Last(rr), i + 1, after.slots, after.word)
    ensures Last(rr).results == Last(ss).results[i := after.res]
  {
    var s := Last(ss);
    var tab' := T.Table(after.slots, after.word, [T.Idle], Apply(s.tab.am, c.ops[i]), s.tab.minted);
    var g' := s.g.(phases := [G.AtDone], done := s.g.done + {i});
    var s' := Sys(g', tab', s.results[i := after.res], s.front[c.ops[i].key := i + 1]);
    assert Returns(c, s, 0, s', after.res);
    rr := Extend(c, ss, s');
    rr := AtGateStep(c, rr, Last(rr).g.(holder := Some(0), phases := [G.Signal]));
    rr := AtGateStep(c, rr, Last(rr).g.(phases := [G.Clear]));
    rr := AtGateStep(c, rr, Last(rr).g.(busy := [false], phases := [G.Leave]));
    rr := AtGateStep(c, rr, Last(rr).g.(holder := None, phases := [G.AtRead]));
  }

  lemma {:induction false} WorkOff(c: T.Config, ss: seq<Sys>, i: nat, next: T.Next, n: nat, after: T.Next)
      returns (rr: seq<Sys>)
    requires Run(c, 1, ss) && i < |c.ops| && Within(Last(ss), i, next)
    requires after == A.Solo(c, next, 0, c.ops[i], n) && after.Done?
    ensures Run(c, 1, rr) && Between(Last(rr), i + 1, after.slots, after.word)
    ensures Last(rr).results == Last(ss).results[i := after.res]
    decreases n
  {
    var later := T.WorkNext(c, next.slots, next.word, 0, c.ops[i], next.w);
    if later.Done? {
      rr := Leave(c, ss, i, next, later);
    } else {
      rr := GoOn(c, ss, i, next, later);
      rr := WorkOff(c, rr, i, later, n - 1, after);
    }
  }

  /** What a thread does alone on the table is what the program does, and its result the
      program's. */
  lemma Serve(c: T.Config, ss: seq<Sys>, i: nat, slots: seq<T.Slot>, word: int, n: nat, after: T.Next)
      returns (rr: seq<Sys>)
    requires Run(c, 1, ss) && Between(Last(ss), i, slots, word) && i < |c.ops| && after.Done?
    requires after == A.Solo(c, T.Go(slots, word, T.Start(c.ops[i], c.home(c.ops[i].key))), 0, c.ops[i], n)
    ensures Run(c, 1, rr) && Between(Last(rr), i + 1, after.slots, after.word)
    ensures Last(rr).results == Last(ss).results[i := after.res]
  {
    rr := Admit(c, ss, i, slots, word);
    rr := WorkOff(c, rr, i, T.Go(slots, word, T.Start(c.ops[i], c.home(c.ops[i].key))), n, after);
  }

  /** A probe that cannot end goes on for as long as one likes. */
  lemma {:induction false} ProbeOn(c: T.Config, ss: seq<Sys>, i: nat, next: T.Next, n: nat) returns (rr: seq<Sys>)
    requires Run(c, 1, ss) && i < |c.ops| && c.ops[i].kind != Put && Within(Last(ss), i, next)
    requires c.home(c.ops[i].key) < |next.slots| <= T.MAX_SIZE
        && !A.CanEnd(next.slots, c.home(c.ops[i].key), c.ops[i].key)
    requires T.InBounds(next.w, |next.slots|) && A.Seen(next.slots, next.w)
        && (next.w.Key1? || next.w.Id? || next.w.Key2?)
    ensures Run(c, 1, rr) && |rr| == |ss| + n
    decreases n
  {
    rr := ss;
    if n > 0 {
      assert !A.Ends(next.slots, c.ops[i].key, next.w.ctr);
      var after := T.WorkNext(c, next.slots, next.word, 0, c.ops[i], next.w);
      rr := GoOn(c, ss, i, next, after);
      rr := ProbeOn(c, rr, i, after, n - 1);
    }
  }

  // ----- there is only one run

  ghost predicate Single(s: Sys) {
    && |s.g.phases| == |s.g.busy| == |s.g.mine| == |s.tab.jobs| == 1
    && !s.g.phases[0].Wait? && !s.g.phases[0].Woken? && (s.g.phases[0].Run? <==> s.tab.jobs[0].Job?)
  }

  lemma StepSingle(c: T.Config, s: Sys, s': Sys)
    requires Single(s) && Next(c, s, s')
    ensures Single(s')
  {
    var t :| Step(c, s, t, s');
    assert t == 0;
  }

  lemma Determined(c: T.Config, s: Sys, a: Sys, b: Sys)
    requires Single(s) && Next(c, s, a) && Next(c, s, b)
    ensures a == b
  {
    var t :| Step(c, s, t, a);
    var u :| Step(c, s, u, b);
    OnlyFirst(c, s, t, a);
    OnlyFirst(c, s, u, b);
    if s.g.phases[0].Run? {
      TableDetermined(c, s, a, b);
    } else {
      GateDetermined(c, s, a, b);
    }
  }

  /** Its one thread moves, at the gate or in the table. */
  lemma OnlyFirst(c: T.Config, s: Sys, t: nat, s': Sys)
    requires Single(s) && Step(c, s, t, s')
    ensures t == 0
    ensures s.g.phases[0].Run? ==> Inside(c, s, 0, s') || exists r :: Returns(c, s, 0, s', r)
    ensures !s.g.phases[0].Run? ==> AtGate(c, s, 0, s')
  {
  }

  lemma GateDetermined(c: T.Config, s: Sys, a: Sys, b: Sys)
    requires AtGate(c, s, 0, a) && AtGate(c, s, 0, b)
    ensures a == b
  {
  }

  lemma TableDetermined(c: T.Config, s: Sys, a: Sys, b: Sys)
    requires Inside(c, s, 0, a) || exists r :: Returns(c, s, 0, a, r)
    requires Inside(c, s, 0, b) || exists r :: Returns(c, s, 0, b, r)
    ensures a == b
  {
  }

  lemma {:induction false} RunSingle(c: T.Config, ss: seq<Sys>)
    requires Run(c, 1, ss)
    ensures Single(Last(ss))
  {
    if |ss| > 1 {
      var front := ss[..|ss| - 1];
      assert Run(c, 1, front);
      RunSingle(c, front);
      assert Next(c, ss[|ss| - 2], ss[|ss| - 2 + 1]);
      StepSingle(c, Last(front), Last(ss));
    }
  }

  /** A run of one thread is the beginning of every longer one. */
  lemma {:induction false} OnlyRun(c: T.Config, ss: seq<Sys>, rr: seq<Sys>)
    requires Run(c, 1, ss) && Run(c, 1, rr) && |ss| <= |rr|
    ensures ss == rr[..|ss|]
  {
    var n := |ss| - 1;
    if n > 0 {
      var front := ss[..n];
      assert Run(c, 1, front);
      OnlyRun(c, front, rr);
      RunSingle(c, front);
      assert Next(c, ss[n - 1], ss[n - 1 + 1]) && Next(c, rr[n - 1], rr[n - 1 + 1]);
      Determined(c, front[n - 1], ss[n], rr[n]);
    }
  }

  lemma ExitedLast(c: T.Config, s: Sys, s': Sys)
    requires Single(s) && s.g.phases[0].Exited?
    ensures !Next(c, s, s')
  {
  }
}
