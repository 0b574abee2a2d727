/** Gate and table together: any number of threads (up to the 32 that main.c allows), any
    interleaving, any input.  Every run gives the results of the sequential run. */
module HashSystem {
  import opened Options
  import opened HashSpec
  import G = Gate
  import T = HashTable
  import I = HashInvariant

  /** results and front are history: what each returned operation gave back, and for each
      key the position behind its last operation that has returned. */
  datatype Sys = Sys(g: G.Gate, tab: T.Table, results: map<nat, Result>, front: map<nat, nat>)

  function Init(c: T.Config, threads: nat): Sys {
    Sys(G.Init(threads), T.Init(c, threads), map[], map[])
  }

  // ----- steps

  predicate AtGate(c: T.Config, s: Sys, t: nat, s': Sys) {
    && t < |s.g.phases| && |s.g.busy| == |s.g.mine| == |s.g.phases|
    && G.Step(c.ops, s.g, t, s'.g)
    && (if s.g.phases[t] == G.Scan(G.THREADS) then T.Enter(c, s.tab, t, s.g.mine[t], s'.tab) else s'.tab == s.tab)
    && s'.results == s.results && s'.front == s.front
  }

  predicate Inside(c: T.Config, s: Sys, t: nat, s': Sys) {
    T.Step(c, s.tab, t, s'.tab, None) && s' == s.(tab := s'.tab)
  }

  predicate Returns(c: T.Config, s: Sys, t: nat, s': Sys, r: Result) {
    && T.Step(c, s.tab, t, s'.tab, Some(r)) && G.Finish(s.g, t, s'.g)
    && s.g.mine[t] < |c.ops|
    && s'.results == s.results[s.g.mine[t] := r]
    && s'.front == s.front[c.ops[s.g.mine[t]].key := s.g.mine[t] + 1]
  }

  predicate Wakes(s: Sys, t: nat, s': Sys) {
    G.Spurious(s.g, t, s'.g) && s' == s.(g := s'.g)
  }

  ghost predicate Step(c: T.Config, s: Sys, t: nat, s': Sys) {
    AtGate(c, s, t, s') || Inside(c, s, t, s') || (exists r :: Returns(c, s, t, s', r)) || Wakes(s, t, s')
  }

  ghost predicate Next(c: T.Config, s: Sys, s': Sys) {
    exists t :: Step(c, s, t, s')
  }

  /** A run: the threads of main.c, started together, in any interleaving. */
  ghost predicate Run(c: T.Config, threads: nat, ss: seq<Sys>) {
    && |ss| > 0 && ss[0] == Init(c, threads)
    && forall n :: 0 <= n < |ss| - 1 ==> Next(c, ss[n], ss[n + 1])
  }

  function Last(ss: seq<Sys>): Sys
    requires |ss| > 0
  {
    ss[|ss| - 1]
  }

  // ----- the invariant

  function Front(front: map<nat, nat>, key: nat): nat {
    if key in front then front[key] else 0
  }

  /** The threads inside the table are those the gate has let in, each with its operation. */
  ghost predicate Agree(s: Sys) {
    && |s.tab.jobs| == |s.g.phases| == |s.g.mine|
    && (forall t :: 0 <= t < |s.g.phases| ==>
          (s.g.phases[t].Run? <==> s.tab.jobs[t].Job?)
          && (s.tab.jobs[t].Job? ==> s.tab.jobs[t].i == s.g.mine[t]))
  }

  /** The returned operations on a key are those before the key's front. */
  ghost predicate Fronts(c: T.Config, done: set<nat>, front: map<nat, nat>) {
    forall j :: 0 <= j < |c.ops| ==> (j in done <==> j < Front(front, c.ops[j].key))
  }

  /** The map has at each key what the sequential run has at the key's front. */
  ghost predicate Caught(c: T.Config, am: map<nat, Entry>, front: map<nat, nat>) {
    && (forall key :: Front(front, key) <= |c.ops|)
    && (forall key :: Lookup(am, key) == Lookup(SeqMap(c.ops, Front(front, key)), key))
  }

  ghost predicate Answered(c: T.Config, done: set<nat>, results: map<nat, Result>) {
    && results.Keys == done
    && (forall j :: j in results ==> j < |c.ops| && results[j] == Answer(SeqMap(c.ops, j), c.ops[j]))
  }

  /** A PUT that has taken a slot has returned or is on its way. */
  ghost predicate Minted(s: Sys) {
    forall j :: j in s.tab.minted
        ==> j in s.g.done || exists t :: 0 <= t < |s.tab.jobs| && s.tab.jobs[t].Job? && s.tab.jobs[t].i == j
  }

  /** What has been done so far is what the sequential run does. */
  ghost predicate Faithful(c: T.Config, done: set<nat>, am: map<nat, Entry>, front: map<nat, nat>,
                           results: map<nat, Result>) {
    Fronts(c, done, front) && Caught(c, am, front) && Answered(c, done, results)
  }

  ghost predicate Inv(c: T.Config, s: Sys) {
    && T.Inv(c, s.tab) && G.Inv(c.ops, s.g) && Agree(s) && Minted(s)
    && Faithful(c, s.g.done, s.tab.am, s.front, s.results)
  }

  /** Keys are not zero, ids increase, and the table has more slots than the sequential run
      has insertions of absent keys. */
  ghost predicate Usable(c: T.Config) {
    T.Usable(c) && G.Increasing(c.ops)
  }

  lemma InitInv(c: T.Config, threads: nat)
    requires Usable(c) && threads <= G.THREADS
    ensures Inv(c, Init(c, threads))
  {
    I.InitKeeps(c, threads);
    G.InitInv(c.ops, threads);
  }

  // ----- admission

  /** When the gate lets an operation in, its key is free and caught up. */
  lemma Ready(c: T.Config, s: Sys, t: nat)
    requires Inv(c, s) && Usable(c) && t < |s.g.phases| && s.g.phases[t] == G.Scan(G.THREADS)
    ensures s.g.mine[t] < |c.ops| && s.g.mine[t] !in s.tab.minted
    ensures !T.Active(c, s.tab, c.ops[s.g.mine[t]].key)
    ensures Lookup(s.tab.am, c.ops[s.g.mine[t]].key) == Lookup(SeqMap(c.ops, s.g.mine[t]), c.ops[s.g.mine[t]].key)
  {
    var i := s.g.mine[t];
    assert s.g.busy[t] && i < s.g.curr && i !in s.g.done;
    var key := c.ops[i].key;
    G.Admission(c.ops, s.g, t);
    ReadyFree(c, s, t);
    assert Front(s.front, key) <= i;
    forall j | Front(s.front, key) <= j < i ensures c.ops[j].key != key {
    }
    SeqMapKey(c.ops, Front(s.front, key), i, key);
  }

  lemma ReadyFree(c: T.Config, s: Sys, t: nat)
    requires Inv(c, s) && t < |s.g.phases| && s.g.phases[t] == G.Scan(G.THREADS) && G.Clearance(c.ops, s.g, t)
    requires s.g.mine[t] < |c.ops|
    ensures s.g.mine[t] !in s.tab.minted && !T.Active(c, s.tab, c.ops[s.g.mine[t]].key)
  {
    assert s.g.busy[t];
    forall u | 0 <= u < |s.tab.jobs| && s.tab.jobs[u].Job? && s.tab.jobs[u].i < |c.ops|
      ensures s.tab.jobs[u].i != s.g.mine[t] && c.ops[s.tab.jobs[u].i].key != c.ops[s.g.mine[t]].key
    {
      assert s.g.phases[u].Run? && s.g.busy[u] && u != t;
      assert G.Clearance(c.ops, s.g, u);
    }
  }

  // ----- every step keeps the invariant

  lemma GateKeeps(c: T.Config, s: Sys, t: nat, s': Sys)
    requires Inv(c, s) && Usable(c) && AtGate(c, s, t, s')
    ensures Inv(c, s')
  {
    G.StepKeeps(c.ops, s.g, t, s'.g);
    GateAgree(c, s, t, s');
    if s.g.phases[t] == G.Scan(G.THREADS) {
      Ready(c, s, t);
      I.EnterKeeps(c, s.tab, t, s.g.mine[t], s'.tab);
    }
  }

  lemma GateAgree(c: T.Config, s: Sys, t: nat, s': Sys)
    requires Agree(s) && Minted(s) && AtGate(c, s, t, s') && G.Shape(c.ops, s.g)
    ensures Agree(s') && Minted(s') && s'.g.done == s.g.done && s'.tab.am == s.tab.am
  {
    forall j | j in s'.tab.minted && j !in s'.g.done
      ensures exists u :: 0 <= u < |s'.tab.jobs| && s'.tab.jobs[u].Job? && s'.tab.jobs[u].i == j
    {
      var u :| 0 <= u < |s.tab.jobs| && s.tab.jobs[u].Job? && s.tab.jobs[u].i == j;
      assert s'.tab.jobs[u] == s.tab.jobs[u];
    }
    forall u | 0 <= u < |s'.g.phases|
      ensures s'.g.phases[u].Run? <==> s'.tab.jobs[u].Job?
      ensures s'.tab.jobs[u].Job? ==> s'.tab.jobs[u].i == s'.g.mine[u]
    {
      assert u != t ==> s'.tab.jobs[u] == s.tab.jobs[u] && s'.g.mine[u] == s.g.mine[u];
      assert u != t ==> s'.g.phases[u].Run? == s.g.phases[u].Run?;
    }
  }

  lemma InsideKeeps(c: T.Config, s: Sys, t: nat, s': Sys)
    requires Inv(c, s) && Usable(c) && Inside(c, s, t, s')
    ensures Inv(c, s')
  {
    I.StepKeeps(c, s.tab, t, s'.tab, None);
    StepJobs(c, s.tab, t, s'.tab, None);
    InsideAgree(c, s, t, s');
  }

  /** What a step inside the table changes, apart from the slots. */
  lemma StepJobs(c: T.Config, tab: T.Table, t: nat, tab': T.Table, res: Option<Result>)
    requires T.Step(c, tab, t, tab', res)
    ensures t < |tab.jobs| && tab.jobs[t].Job? && tab.jobs[t].i < |c.ops| && |tab'.jobs| == |tab.jobs|
    ensures tab'.jobs == tab.jobs[t := tab'.jobs[t]]
    ensures tab'.minted <= tab.minted + {tab.jobs[t].i}
    ensures res == None ==> tab'.jobs[t].Job? && tab'.jobs[t].i == tab.jobs[t].i && tab'.am == tab.am
    ensures res.Some? ==> tab'.jobs[t] == T.Idle && tab'.am == Apply(tab.am, c.ops[tab.jobs[t].i])
  {
  }

  lemma InsideAgree(c: T.Config, s: Sys, t: nat, s': Sys)
    requires Agree(s) && Minted(s) && s'.g == s.g
    requires t < |s.tab.jobs| && s.tab.jobs[t].Job? && |s'.tab.jobs| == |s.tab.jobs|
    requires s'.tab.jobs == s.tab.jobs[t := s'.tab.jobs[t]] && s'.tab.minted <= s.tab.minted + {s.tab.jobs[t].i}
    requires s'.tab.jobs[t].Job? && s'.tab.jobs[t].i == s.tab.jobs[t].i
    ensures Agree(s') && Minted(s')
  {
    forall j | j in s'.tab.minted && j !in s'.g.done
      ensures exists u :: 0 <= u < |s'.tab.jobs| && s'.tab.jobs[u].Job? && s'.tab.jobs[u].i == j
    {
      if j == s.tab.jobs[t].i {
        assert s'.tab.jobs[t].i == j;
      } else {
        var u :| 0 <= u < |s.tab.jobs| && s.tab.jobs[u].Job? && s.tab.jobs[u].i == j;
        assert s'.tab.jobs[u] == s.tab.jobs[u] || u == t;
        assert s'.tab.jobs[u].i == j;
      }
    }
  }

  lemma ReturnKeeps(c: T.Config, s: Sys, t: nat, s': Sys, r: Result)
    requires Inv(c, s) && Usable(c) && Returns(c, s, t, s', r)
    ensures Inv(c, s')
  {
    ReturnParts(c, s, t, s', r);
    ReturnFacts(c, s, t, s', r);
    ReturnFaithful(c, s, s', s.g.mine[t], r);
  }

  lemma ReturnParts(c: T.Config, s: Sys, t: nat, s': Sys, r: Result)
    requires T.Inv(c, s.tab) && G.Inv(c.ops, s.g) && Agree(s) && Minted(s) && Usable(c) && Returns(c, s, t, s', r)
    ensures T.Inv(c, s'.tab) && G.Inv(c.ops, s'.g) && Agree(s') && Minted(s')
  {
    ReturnTable(c, s, t, s', r);
    ReturnGate(c, s, t, s', r);
    ReturnAgree(c, s, t, s', r);
  }

  /** What a return changes in the history, and why it may. */
  ghost predicate Returned(c: T.Config, s: Sys, s': Sys, i: nat, r: Result) {
    && i < |c.ops| && i !in s.g.done && r == Answer(SeqMap(c.ops, i), c.ops[i])
    && (forall j :: 0 <= j < i && c.ops[j].key == c.ops[i].key ==> j in s.g.done)
    && s'.g.done == s.g.done + {i} && s'.tab.am == Apply(s.tab.am, c.ops[i])
    && s'.results == s.results[i := r] && s'.front == s.front[c.ops[i].key := i + 1]
  }

  lemma ReturnFacts(c: T.Config, s: Sys, t: nat, s': Sys, r: Result)
    requires T.Inv(c, s.tab) && G.Inv(c.ops, s.g) && Agree(s) && Usable(c) && Returns(c, s, t, s', r)
    ensures Returned(c, s, s', s.g.mine[t], r)
  {
    ReturnTable(c, s, t, s', r);
    ReturnGate(c, s, t, s', r);
  }

  lemma ReturnFaithful(c: T.Config, s: Sys, s': Sys, i: nat, r: Result)
    requires Faithful(c, s.g.done, s.tab.am, s.front, s.results) && Returned(c, s, s', i, r)
    ensures Faithful(c, s'.g.done, s'.tab.am, s'.front, s'.results)
  {
    ReturnFronts(c, s.g.done, s.tab.am, s.front, i);
    ReturnAnswered(c, s.g.done, s.results, i, r);
  }

  lemma ReturnAnswered(c: T.Config, done: set<nat>, results: map<nat, Result>, i: nat, r: Result)
    requires Answered(c, done, results) && i < |c.ops| && r == Answer(SeqMap(c.ops, i), c.ops[i])
    ensures Answered(c, done + {i}, results[i := r])
  {
  }

  lemma ReturnTable(c: T.Config, s: Sys, t: nat, s': Sys, r: Result)
    requires T.Inv(c, s.tab) && Agree(s) && Usable(c) && Returns(c, s, t, s', r)
    ensures T.Inv(c, s'.tab) && r == Answer(SeqMap(c.ops, s.g.mine[t]), c.ops[s.g.mine[t]])
    ensures t < |s.tab.jobs| && s.tab.jobs[t].Job? && s.tab.jobs[t].i == s.g.mine[t]
    ensures s'.tab.jobs == s.tab.jobs[t := T.Idle] && s'.tab.minted <= s.tab.minted + {s.tab.jobs[t].i}
    ensures s'.tab.am == Apply(s.tab.am, c.ops[s.g.mine[t]])
  {
    I.StepKeeps(c, s.tab, t, s'.tab, Some(r));
    StepJobs(c, s.tab, t, s'.tab, Some(r));
  }

  lemma ReturnGate(c: T.Config, s: Sys, t: nat, s': Sys, r: Result)
    requires G.Inv(c.ops, s.g) && Returns(c, s, t, s', r)
    ensures G.Inv(c.ops, s'.g) && s'.g.done == s.g.done + {s.g.mine[t]} && s.g.mine[t] !in s.g.done
    ensures forall j :: 0 <= j < s.g.mine[t] && c.ops[j].key == c.ops[s.g.mine[t]].key ==> j in s.g.done
  {
    G.FinishKeeps(c.ops, s.g, t, s'.g);
    assert G.Clearance(c.ops, s.g, t) && s.g.busy[t];
  }

  lemma ReturnAgree(c: T.Config, s: Sys, t: nat, s': Sys, r: Result)
    requires Agree(s) && Minted(s) && G.Finish(s.g, t, s'.g)
    requires t < |s.tab.jobs| && s.tab.jobs[t].Job? && |s'.tab.jobs| == |s.tab.jobs|
    requires s'.tab.jobs == s.tab.jobs[t := T.Idle] && s'.tab.minted <= s.tab.minted + {s.tab.jobs[t].i}
    ensures Agree(s') && Minted(s')
  {
    forall j | j in s'.tab.minted && j !in s'.g.done
      ensures exists u :: 0 <= u < |s'.tab.jobs| && s'.tab.jobs[u].Job? && s'.tab.jobs[u].i == j
    {
      var u :| 0 <= u < |s.tab.jobs| && s.tab.jobs[u].Job? && s.tab.jobs[u].i == j;
      assert u != t && s'.tab.jobs[u] == s.tab.jobs[u];
    }
  }

  /** The front of the key moves behind the operation that returns. */
  lemma ReturnFronts(c: T.Config, done: set<nat>, am: map<nat, Entry>, front: map<nat, nat>, i: nat)
    requires Fronts(c, done, front) && Caught(c, am, front)
    requires i < |c.ops| && i !in done
    requires forall j :: 0 <= j < i && c.ops[j].key == c.ops[i].key ==> j in done
    ensures Fronts(c, done + {i}, front[c.ops[i].key := i + 1])
    ensures Caught(c, Apply(am, c.ops[i]), front[c.ops[i].key := i + 1])
  {
    var key := c.ops[i].key;
    var front' := front[key := i + 1];
    forall j | 0 <= j < |c.ops| ensures j in done + {i} <==> j < Front(front', c.ops[j].key) {
      assert j in done <==> j < Front(front, c.ops[j].key);
    }
    assert Front(front, key) <= i;
    SeqMapKey(c.ops, Front(front, key), i, key);
    AnswerKey(am, SeqMap(c.ops, i), c.ops[i]);
    forall k
      ensures Front(front', k) <= |c.ops|
      ensures Lookup(Apply(am, c.ops[i]), k) == Lookup(SeqMap(c.ops, Front(front', k)), k)
    {
      assert Front(front, k) <= |c.ops|;
      if k != key {
        ApplyOther(am, c.ops[i], k);
        assert Front(front', k) == Front(front, k);
      } else {
        assert SeqMap(c.ops, i + 1) == Apply(SeqMap(c.ops, i), c.ops[i]);
      }
    }
  }

  lemma TableKeeps(c: T.Config, s: Sys, t: nat, s': Sys)
    requires Inv(c, s) && Usable(c)
    requires Inside(c, s, t, s') || exists r :: Returns(c, s, t, s', r)
    ensures Inv(c, s')
  {
    if Inside(c, s, t, s') {
      InsideKeeps(c, s, t, s');
    } else {
      var r :| Returns(c, s, t, s', r);
      ReturnKeeps(c, s, t, s', r);
    }
  }

  lemma WakeKeeps(c: T.Config, s: Sys, t: nat, s': Sys)
    requires Inv(c, s) && Wakes(s, t, s')
    ensures Inv(c, s')
  {
    G.SpuriousKeeps(c.ops, s.g, t, s'.g);
  }

  /** Every step of every thread keeps the invariant. */
  lemma StepKeeps(c: T.Config, s: Sys, t: nat, s': Sys)
    requires Inv(c, s) && Usable(c) && Step(c, s, t, s')
    ensures Inv(c, s')
  {
    if AtGate(c, s, t, s') {
      GateKeeps(c, s, t, s');
    } else if Wakes(s, t, s') {
      WakeKeeps(c, s, t, s');
    } else {
      TableKeeps(c, s, t, s');
    }
  }

  lemma {:induction false} RunInv(c: T.Config, threads: nat, ss: seq<Sys>)
    requires Usable(c) && threads <= G.THREADS && Run(c, threads, ss)
    ensures Inv(c, Last(ss))
  {
    if |ss| == 1 {
      InitInv(c, threads);
    } else {
      var front := ss[..|ss| - 1];
      assert Run(c, threads, front);
      RunInv(c, threads, front);
      LastStep(c, Last(front), Last(ss), ss, threads);
    }
  }

  lemma LastStep(c: T.Config, s: Sys, s': Sys, ss: seq<Sys>, threads: nat)
    requires |ss| > 1 && Run(c, threads, ss) && s == ss[|ss| - 2] && s' == Last(ss)
    requires Inv(c, s) && Usable(c)
    ensures Inv(c, s')
  {
    assert Next(c, ss[|ss| - 2], ss[|ss| - 1]);
    var t :| Step(c, s, t, s');
    StepKeeps(c, s, t, s');
  }
}
