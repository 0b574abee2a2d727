/** Every run of the parallel hash program is finite, but for spurious wakeups. */
module HashTermination {
  import opened Options
  import opened HashSpec
  import opened HashProgress
  import opened HashSystem
  import opened HashTheorems
  import opened Sums
  import G = Gate
  import T = HashTable

  // ----- what the threads have left

  /** The steps a thread has left until it has exited or takes its next operation; left
      counts those inside the table and is below k.  Its broadcast may cost each of the n
      threads 33 steps, for one more scan. */
  function Ahead(k: nat, n: nat, p: G.Phase, left: int): int {
    match p
    case AtRead => 2
    case Fetch => 1
    case Scan(u) => k + 7 + 33 * n + G.THREADS - u
    case Wait => k + 7 + 33 * n
    case Woken => k + 7 + 33 * n + G.THREADS + 1
    case Run => 7 + 33 * n + left
    case AtDone => 6 + 33 * n
    case Signal => 5 + 33 * n
    case Clear => 4
    case Leave => 3
    case Exited => 0
  }

  /** What one operation costs at most. */
  function Cost(k: nat, n: nat): nat {
    k + 33 * n + 40
  }

  function Aheads(k: nat, phases: seq<G.Phase>, lefts: seq<int>): seq<int>
    requires |lefts| == |phases|
  {
    seq(|phases|, t requires 0 <= t < |phases| => Ahead(k, |phases|, phases[t], lefts[t]))
  }

  /** The operations that nobody has taken, and what the threads have left. */
  function Remaining(m: nat, k: nat, g: G.Gate, lefts: seq<int>): int
    requires |lefts| == |g.phases|
  {
    Times(Cost(k, |g.phases|), m - g.curr) + Sum(Aheads(k, g.phases, lefts))
  }

  /** a for each of b. */
  function Times(a: nat, b: int): int {
    if b <= 0 then 0 else a + Times(a, b - 1)
  }

  /** Thread t goes on to phase p', with left' steps left in the table. */
  lemma OneMoves(m: nat, k: nat, g: G.Gate, g': G.Gate, lefts: seq<int>, lefts': seq<int>, t: nat, d: int)
    requires |lefts| == |lefts'| == |g.phases| && t < |g.phases| && |g'.phases| == |g.phases|
    requires g'.curr == g.curr || g'.curr == g.curr + 1 <= m
    requires g'.phases == g.phases[t := g'.phases[t]] && lefts' == lefts[t := lefts'[t]]
    requires d == Ahead(k, |g.phases|, g'.phases[t], lefts'[t]) - Ahead(k, |g.phases|, g.phases[t], lefts[t])
    ensures g'.curr == g.curr ==> Remaining(m, k, g', lefts') == Remaining(m, k, g, lefts) + d
    ensures g'.curr == g.curr + 1 ==> Remaining(m, k, g', lefts') == Remaining(m, k, g, lefts) + d - Cost(k, |g.phases|)
  {
    var a' := Ahead(k, |g.phases|, g'.phases[t], lefts'[t]);
    SumSet(Aheads(k, g.phases, lefts), t, a');
    assert Aheads(k, g'.phases, lefts') == Aheads(k, g.phases, lefts)[t := a'];
  }

  lemma GateDown(ops: seq<Op>, k: nat, g: G.Gate, t: nat, g': G.Gate, lefts: seq<int>, lefts': seq<int>)
    requires t < |g.phases| == |g.busy| == |g.mine| <= G.THREADS && G.Step(ops, g, t, g') && !g.phases[t].Signal?
        && g.curr <= |ops|
    requires |lefts| == |lefts'| == |g.phases| && lefts' == lefts[t := lefts'[t]]
    requires if g.phases[t] == G.Scan(G.THREADS) then lefts'[t] < k else lefts' == lefts
    ensures |g'.phases| == |g.phases| && Remaining(|ops|, k, g', lefts') < Remaining(|ops|, k, g, lefts)
  {
    var d := Ahead(k, |g.phases|, g'.phases[t], lefts'[t]) - Ahead(k, |g.phases|, g.phases[t], lefts[t]);
    OneMoves(|ops|, k, g, g', lefts, lefts', t, d);
  }

  lemma AwakeAhead(k: nat, n: nat, p: G.Phase, left: int)
    ensures Ahead(k, n, G.Awake(p), left) <= Ahead(k, n, p, left) + 33
  {
  }

  /** A broadcast costs each waiting thread one more scan, for which its sender has saved. */
  lemma SignalDown(ops: seq<Op>, k: nat, g: G.Gate, t: nat, g': G.Gate, lefts: seq<int>)
    requires t < |g.phases| == |g.busy| == |g.mine| && G.Step(ops, g, t, g') && g.phases[t].Signal?
    requires |lefts| == |g.phases|
    ensures |g'.phases| == |g.phases| && Remaining(|ops|, k, g', lefts) < Remaining(|ops|, k, g, lefts)
  {
    SumDown(k, g.phases, g'.phases, t, lefts);
  }

  lemma SumDown(k: nat, phases: seq<G.Phase>, phases': seq<G.Phase>, t: nat, lefts: seq<int>)
    requires t < |phases| == |phases'| == |lefts| && phases[t].Signal? && phases'[t].Clear?
    requires forall u :: 0 <= u < |phases| && u != t ==> phases'[u] == G.Awake(phases[u])
    ensures Sum(Aheads(k, phases', lefts)) < Sum(Aheads(k, phases, lefts))
  {
    var cleared := Aheads(k, phases, lefts)[t := 4];
    SumSet(Aheads(k, phases, lefts), t, 4);
    forall u | 0 <= u < |phases| ensures Aheads(k, phases', lefts)[u] <= cleared[u] + 33 {
      AwakeAhead(k, |phases|, phases[u], lefts[u]);
    }
    SumRaise(cleared, Aheads(k, phases', lefts), 33);
  }

  /** A spurious wakeup costs one more scan. */
  lemma WakeUp(m: nat, k: nat, g: G.Gate, t: nat, g': G.Gate, lefts: seq<int>)
    requires |lefts| == |g.phases| && G.Spurious(g, t, g')
    ensures |g'.phases| == |g.phases| && Remaining(m, k, g', lefts) == Remaining(m, k, g, lefts) + 33
  {
    OneMoves(m, k, g, g', lefts, lefts, t, 33);
  }

  // ----- the whole program

  /** The bound of ProbesEnd. */
  function Most(c: T.Config): nat {
    3 * c.size + 12
  }

  function JobLeft(c: T.Config, job: T.Job): int {
    if job.Job? && job.i < |c.ops| then Left(c.size, c.home(c.ops[job.i].key), job.w) else 0
  }

  function JobLefts(c: T.Config, jobs: seq<T.Job>): seq<int> {
    seq(|jobs|, t requires 0 <= t < |jobs| => JobLeft(c, jobs[t]))
  }

  function SysLeft(c: T.Config, s: Sys): int
    requires |s.tab.jobs| == |s.g.phases|
  {
    Remaining(|c.ops|, Most(c), s.g, JobLefts(c, s.tab.jobs))
  }

  lemma JobLeftBounds(c: T.Config, tab: T.Table, t: nat)
    requires T.Usable(c) && |tab.slots| == c.size && t < |tab.jobs| && T.JobOk(c, tab, t)
    ensures 0 <= JobLeft(c, tab.jobs[t]) < Most(c)
  {
    if tab.jobs[t].Job? {
      LeftBounds(c.size, c.home(c.ops[tab.jobs[t].i].key), tab.jobs[t].w);
    }
  }

  /** A step inside the table, seen from the gate. */
  lemma InsideLefts(c: T.Config, tab: T.Table, t: nat, tab': T.Table, res: Option<Result>)
    requires T.Usable(c) && T.Inv(c, tab) && T.Step(c, tab, t, tab', res)
    ensures t < |tab.jobs| == |tab'.jobs|
    ensures JobLefts(c, tab'.jobs) == JobLefts(c, tab.jobs)[t := JobLeft(c, tab'.jobs[t])]
    ensures 0 < JobLeft(c, tab.jobs[t]) && (res == None ==> JobLeft(c, tab'.jobs[t]) < JobLeft(c, tab.jobs[t]))
  {
    StepJobs(c, tab, t, tab', res);
    ProbesEnd(c, tab, t, tab', res);
  }

  lemma InsideDown(c: T.Config, s: Sys, t: nat, s': Sys)
    requires T.Inv(c, s.tab) && Agree(s) && T.Usable(c) && Inside(c, s, t, s')
    ensures |s'.tab.jobs| == |s'.g.phases| && SysLeft(c, s') < SysLeft(c, s)
  {
    InsideLefts(c, s.tab, t, s'.tab, None);
    StepJobs(c, s.tab, t, s'.tab, None);
    RunDown(c, s, t, s');
  }

  lemma ReturnDown(c: T.Config, s: Sys, t: nat, s': Sys, r: Result)
    requires T.Inv(c, s.tab) && Agree(s) && T.Usable(c) && Returns(c, s, t, s', r)
    ensures |s'.tab.jobs| == |s'.g.phases| && SysLeft(c, s') < SysLeft(c, s)
  {
    InsideLefts(c, s.tab, t, s'.tab, Some(r));
    StepJobs(c, s.tab, t, s'.tab, Some(r));
    RunDown(c, s, t, s');
  }

  /** A thread inside the table goes on, or leaves it. */
  lemma RunDown(c: T.Config, s: Sys, t: nat, s': Sys)
    requires t < |s.tab.jobs| == |s.g.phases| == |s'.tab.jobs| && s.g.phases[t].Run?
    requires JobLefts(c, s'.tab.jobs) == JobLefts(c, s.tab.jobs)[t := JobLeft(c, s'.tab.jobs[t])]
    requires if s'.g == s.g then JobLeft(c, s'.tab.jobs[t]) < JobLeft(c, s.tab.jobs[t])
             else 0 < JobLeft(c, s.tab.jobs[t]) && s'.g.curr == s.g.curr && s'.g.phases == s.g.phases[t := G.AtDone]
    ensures |s'.tab.jobs| == |s'.g.phases| && SysLeft(c, s') < SysLeft(c, s)
  {
    var l, l' := JobLefts(c, s.tab.jobs), JobLefts(c, s'.tab.jobs);
    OneMoves(|c.ops|, Most(c), s.g, s'.g, l, l', t, if s'.g == s.g then l'[t] - l[t] else -1 - l[t]);
  }

  lemma GateStepDown(c: T.Config, s: Sys, t: nat, s': Sys)
    requires Agree(s) && Agree(s') && |s.g.phases| <= G.THREADS && s.g.curr <= |c.ops| && T.JobsOk(c, s'.tab)
        && |s'.tab.slots| == c.size && T.Usable(c) && AtGate(c, s, t, s')
    ensures |s'.tab.jobs| == |s'.g.phases| && SysLeft(c, s') < SysLeft(c, s)
  {
    var l, l' := JobLefts(c, s.tab.jobs), JobLefts(c, s'.tab.jobs);
    if s.g.phases[t].Signal? {
      SignalDown(c.ops, Most(c), s.g, t, s'.g, l);
    } else {
      assert T.JobOk(c, s'.tab, t);
      JobLeftBounds(c, s'.tab, t);
      assert l' == l[t := l'[t]];
      GateDown(c.ops, Most(c), s.g, t, s'.g, l, l');
    }
  }

  /** Every step but a spurious wakeup brings the program nearer to its end. */
  lemma StepDown(c: T.Config, s: Sys, t: nat, s': Sys)
    requires Inv(c, s) && Usable(c) && Step(c, s, t, s') && !Wakes(s, t, s') && Inv(c, s')
    ensures SysLeft(c, s') < SysLeft(c, s)
  {
    if AtGate(c, s, t, s') {
      GateStepDown(c, s, t, s');
    } else if Inside(c, s, t, s') {
      InsideDown(c, s, t, s');
    } else {
      var r :| Returns(c, s, t, s', r);
      ReturnDown(c, s, t, s', r);
    }
  }

  // ----- runs

  ghost predicate IsWakeup(s: Sys, s': Sys) {
    exists t :: Wakes(s, t, s')
  }

  /** How many steps of a run are spurious wakeups. */
  ghost function Wakeups(ss: seq<Sys>): nat {
    if |ss| < 2 then 0 else Wakeups(ss[..|ss| - 1]) + if IsWakeup(ss[|ss| - 2], ss[|ss| - 1]) then 1 else 0
  }

  /** One step more, or one spurious wakeup more. */
  lemma LastDown(c: T.Config, s: Sys, s': Sys)
    requires Usable(c) && Inv(c, s) && Inv(c, s') && Next(c, s, s')
    ensures |s'.g.phases| == |s.g.phases| && SysLeft(c, s') + 1 <= SysLeft(c, s) + if IsWakeup(s, s') then 34 else 0
  {
    if t :| Wakes(s, t, s') {
      WakeUp(|c.ops|, Most(c), s.g, t, s'.g, JobLefts(c, s.tab.jobs));
    } else {
      var t :| Step(c, s, t, s');
      StepDown(c, s, t, s');
      SameThreads(c, s, t, s');
    }
  }

  lemma SameThreads(c: T.Config, s: Sys, t: nat, s': Sys)
    requires Step(c, s, t, s')
    ensures |s'.g.phases| == |s.g.phases|
  {
  }

  lemma AheadsBounds(m: nat, k: nat, g: G.Gate, lefts: seq<int>)
    requires |lefts| == |g.phases| && g.curr <= m && forall t :: 0 <= t < |lefts| ==> 0 <= lefts[t] < k
    requires forall t :: 0 <= t < |g.phases| && g.phases[t].Scan? ==> g.phases[t].u <= G.THREADS
    ensures Remaining(m, k, g, lefts) >= 0
  {
    SumBounds(Aheads(k, g.phases, lefts), Cost(k, |g.phases|));
    TimesProduct(Cost(k, |g.phases|), m - g.curr);
  }

  lemma {:induction false} TimesProduct(a: nat, b: nat)
    ensures Times(a, b) == a * b >= 0
  {
    if b > 0 {
      TimesProduct(a, b - 1);
      assert a * b == a + a * (b - 1);
    }
  }

  lemma InitLeft(c: T.Config, threads: nat)
    ensures SysLeft(c, Init(c, threads)) == Cost(Most(c), threads) * |c.ops| + 2 * threads
  {
    var s := Init(c, threads);
    var twos := seq(threads, _ => 2);
    assert Aheads(Most(c), s.g.phases, JobLefts(c, s.tab.jobs)) == twos;
    Twos(threads);
    TimesProduct(Cost(Most(c), threads), |c.ops|);
  }

  lemma {:induction false} Twos(n: nat)
    ensures Sum(seq(n, _ => 2)) == 2 * n
  {
    if n > 0 {
      assert seq(n, _ => 2)[..n - 1] == seq(n - 1, _ => 2);
      Twos(n - 1);
    }
  }

  /** A run of n threads over m operations with k spurious wakeups has at most
      m * Cost(Most(c), n) + 2 * n + 34 * k steps. */
  lemma RunLength(c: T.Config, threads: nat, ss: seq<Sys>)
    requires Usable(c) && threads <= G.THREADS && Run(c, threads, ss)
    ensures |Last(ss).g.phases| == threads
    ensures |ss| - 1 <= Cost(Most(c), threads) * |c.ops| + 2 * threads + 34 * Wakeups(ss)
  {
    RunSpent(c, threads, ss);
    RunInv(c, threads, ss);
    SysLeftBounds(c, Last(ss));
  }

  lemma {:induction false} RunSpent(c: T.Config, threads: nat, ss: seq<Sys>)
    requires Usable(c) && threads <= G.THREADS && Run(c, threads, ss)
    ensures |Last(ss).tab.jobs| == |Last(ss).g.phases| == threads
    ensures |ss| - 1 + SysLeft(c, Last(ss)) <= Cost(Most(c), threads) * |c.ops| + 2 * threads + 34 * Wakeups(ss)
  {
    if |ss| == 1 {
      InitLeft(c, threads);
    } else {
      var front := ss[..|ss| - 1];
      assert Run(c, threads, front);
      RunSpent(c, threads, front);
      RunInv(c, threads, front);
      RunInv(c, threads, ss);
      assert Next(c, ss[|ss| - 2], ss[|ss| - 2 + 1]);
      LastDown(c, Last(front), Last(ss));
    }
  }

  lemma SysLeftBounds(c: T.Config, s: Sys)
    requires Inv(c, s) && Usable(c)
    ensures SysLeft(c, s) >= 0
  {
    LeftsBounds(c, s.tab);
    AheadsBounds(|c.ops|, Most(c), s.g, JobLefts(c, s.tab.jobs));
  }

  lemma LeftsBounds(c: T.Config, tab: T.Table)
    requires T.Usable(c) && |tab.slots| == c.size && T.JobsOk(c, tab)
    ensures forall t :: 0 <= t < |tab.jobs| ==> 0 <= JobLefts(c, tab.jobs)[t] < Most(c)
  {
    forall t | 0 <= t < |tab.jobs| ensures 0 <= JobLefts(c, tab.jobs)[t] < Most(c) {
      assert T.JobOk(c, tab, t);
      JobLeftBounds(c, tab, t);
    }
  }

  /** A run of at least one thread that can go on, if at all, with spurious wakeups only,
      is complete: all threads have exited, with all results and the final table. */
  lemma MaximalRunsFinish(c: T.Config, threads: nat, ss: seq<Sys>)
    requires Usable(c) && 0 < threads <= G.THREADS && Run(c, threads, ss)
    requires forall t, s' :: Step(c, Last(ss), t, s') ==> Wakes(Last(ss), t, s')
    ensures AllExited(Last(ss)) && Final(c, Last(ss))
  {
    RunLength(c, threads, ss);
    if !AllExited(Last(ss)) {
      var t, s' := NoDeadlock(c, threads, ss);
      assert false;
    }
    FinalTable(c, threads, ss);
  }
}
