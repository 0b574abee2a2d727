/** The admission gate of Assignment4/parallel_hash.c: read_op hands out operations in
    stream order and holds an operation back while an earlier one on the same key is in
    progress; done_one lets the waiting ones look again.  The loop around them is that of
    `process` in part-3/main.c.

    A state machine: one step is one thread's next action on the input manager. */
module Gate {
  import opened Options
  import opened HashSpec

  /** The size of being_processed, and the most threads main.c starts. */
  const THREADS: nat := 32

  /** Where a thread is in its loop. */
  datatype Phase =
    | AtRead           // about to lock, in read_op
    | Fetch            // locked, about to take the next operation
    | Scan(u: nat)     // locked, about to look at being_processed[u]
    | Wait             // in pthread_cond_wait
    | Woken            // signalled, about to lock again
    | Run              // in lookup, insert_update or purge_key
    | AtDone           // about to lock, in done_one
    | Signal           // locked, about to broadcast
    | Clear            // locked, about to clear its entry
    | Leave            // locked, about to unlock
    | Exited           // the input is used up

  /** busy[t] says that being_processed[t] points to thread t's op, which holds operation
      mine[t].  Entries of threads that do not exist stay NULL.  done is history: the
      operations that have returned. */
  datatype Gate = Gate(curr: nat, holder: Option<nat>, busy: seq<bool>, phases: seq<Phase>, mine: seq<nat>,
                       done: set<nat>)

  function Init(threads: nat): Gate {
    Gate(0, None, seq(threads, _ => false), seq(threads, _ => AtRead), seq(threads, _ => 0), {})
  }

  // ----- the code

  /** Thread u is working on an earlier operation with the key of thread t's. */
  predicate Blocks(ops: seq<Op>, g: Gate, u: nat, t: nat) {
    && u != t && u < |g.busy| && t < |g.mine| && u < |g.mine| && g.busy[u]
    && g.mine[t] < |ops| && g.mine[u] < |ops|
    && ops[g.mine[t]].key == ops[g.mine[u]].key && ops[g.mine[t]].id > ops[g.mine[u]].id
  }

  function Awake(p: Phase): Phase {
    if p == Wait then Woken else p
  }

  /** What thread t does next outside the table operation itself.  Leaving Scan(THREADS)
      is admission. */
  predicate Step(ops: seq<Op>, g: Gate, t: nat, g': Gate)
    requires t < |g.phases| && |g.busy| == |g.mine| == |g.phases|
  {
    match g.phases[t]
    case AtRead => g.holder == None && g' == g.(holder := Some(t), phases := g.phases[t := Fetch])
    case Fetch =>
      if g.curr == |ops| then g' == g.(holder := None, phases := g.phases[t := Exited])
      else g' == g.(curr := g.curr + 1, busy := g.busy[t := true], mine := g.mine[t := g.curr],
                    phases := g.phases[t := Scan(0)])
    case Scan(u) =>
      if u == THREADS then g' == g.(holder := None, phases := g.phases[t := Run])
      else if Blocks(ops, g, u, t) then g' == g.(holder := None, phases := g.phases[t := Wait])
      else g' == g.(phases := g.phases[t := Scan(u + 1)])
    case Woken => g.holder == None && g' == g.(holder := Some(t), phases := g.phases[t := Scan(0)])
    case AtDone => g.holder == None && g' == g.(holder := Some(t), phases := g.phases[t := Signal])
    case Signal =>
      g' == g.(phases := seq(|g.phases|, u requires 0 <= u < |g.phases| =>
                               if u == t then Clear else Awake(g.phases[u])))
    case Clear => g' == g.(busy := g.busy[t := false], phases := g.phases[t := Leave])
    case Leave => g' == g.(holder := None, phases := g.phases[t := AtRead])
    case Wait => false
    case Run => false
    case Exited => false
  }

  /** The table operation of thread t returns. */
  predicate Finish(g: Gate, t: nat, g': Gate) {
    && t < |g.phases| && t < |g.mine| && g.phases[t] == Run
    && g' == g.(phases := g.phases[t := AtDone], done := g.done + {g.mine[t]})
  }

  /** pthread_cond_wait may also return without a signal. */
  predicate Spurious(g: Gate, t: nat, g': Gate) {
    t < |g.phases| && g.phases[t] == Wait && g' == g.(phases := g.phases[t := Woken])
  }

  // ----- what holds in every state

  predicate HoldsLock(p: Phase) {
    p.Fetch? || p.Scan? || p.Signal? || p.Clear? || p.Leave?
  }

  /** Between taking an operation and clearing the entry. */
  predicate IsBusy(p: Phase) {
    p.Scan? || p.Wait? || p.Woken? || p.Run? || p.AtDone? || p.Signal? || p.Clear?
  }

  predicate HasReturned(p: Phase) {
    p.AtDone? || p.Signal? || p.Clear?
  }

  ghost predicate Shape(ops: seq<Op>, g: Gate) {
    && |g.busy| == |g.mine| == |g.phases| <= THREADS
    && g.curr <= |ops|
    && (forall t :: 0 <= t < |g.phases| ==> (g.holder == Some(t) <==> HoldsLock(g.phases[t])))
    && (g.holder.Some? ==> g.holder.value < |g.phases|)
    && (forall t :: 0 <= t < |g.phases| ==> (g.busy[t] <==> IsBusy(g.phases[t])))
    && (forall t :: 0 <= t < |g.phases| && g.busy[t] ==> g.mine[t] < g.curr)
    && (forall t :: 0 <= t < |g.phases| && g.phases[t].Exited? ==> g.curr == |ops|)
  }

  /** Each operation taken from the stream has returned or is in one thread's hands. */
  ghost predicate Accounted(g: Gate) {
    && |g.busy| == |g.mine| == |g.phases|
    && (forall t, u :: 0 <= t < |g.phases| && 0 <= u < |g.phases| && t != u && g.busy[t] && g.busy[u]
         ==> g.mine[t] != g.mine[u])
    && (forall j :: 0 <= j < g.curr && j !in g.done ==> exists t :: 0 <= t < |g.phases| && g.busy[t] && g.mine[t] == j)
    && (forall j :: j in g.done ==> j < g.curr)
    && (forall t :: 0 <= t < |g.phases| && g.busy[t] ==> (g.mine[t] in g.done <==> HasReturned(g.phases[t])))
  }

  /** All earlier operations on the key of thread t's have returned. */
  ghost predicate Clearance(ops: seq<Op>, g: Gate, t: nat)
    requires t < |g.mine|
  {
    forall j :: 0 <= j < g.mine[t] && g.mine[t] < |ops| && ops[j].key == ops[g.mine[t]].key ==> j in g.done
  }

  /** What a scan has seen, and what it ends with. */
  ghost predicate Admitted(ops: seq<Op>, g: Gate) {
    && |g.busy| == |g.mine| == |g.phases|
    && (forall t, u :: 0 <= t < |g.phases| && g.phases[t].Scan? && 0 <= u < g.phases[t].u ==> !Blocks(ops, g, u, t))
    && (forall t :: 0 <= t < |g.phases| && g.phases[t].Scan? ==> g.phases[t].u <= THREADS)
    && (forall t :: 0 <= t < |g.phases| && g.phases[t].Run? ==> Clearance(ops, g, t))
  }

  /** A waiting thread waits for one that has yet to broadcast: no wakeup is lost. */
  ghost predicate WillWake(ops: seq<Op>, g: Gate, t: nat) {
    exists u :: 0 <= u < |g.phases| && Blocks(ops, g, u, t) && !g.phases[u].Clear?
  }

  ghost predicate NoneLost(ops: seq<Op>, g: Gate) {
    forall t :: 0 <= t < |g.phases| && g.phases[t].Wait? ==> WillWake(ops, g, t)
  }

  ghost predicate Inv(ops: seq<Op>, g: Gate) {
    Shape(ops, g) && Accounted(g) && Admitted(ops, g) && NoneLost(ops, g)
  }

  /** Ids strictly increase along the stream. */
  ghost predicate Increasing(ops: seq<Op>) {
    forall i, j :: 0 <= i < j < |ops| ==> ops[i].id < ops[j].id
  }

  lemma InitInv(ops: seq<Op>, threads: nat)
    requires threads <= THREADS
    ensures Inv(ops, Init(threads))
  {
  }

  lemma ShapeKeep(ops: seq<Op>, g: Gate, t: nat, g': Gate)
    requires Shape(ops, g) && t < |g.phases| && Step(ops, g, t, g')
    ensures Shape(ops, g')
  {
    LockKeep(ops, g, t, g');
    BusyKeep(ops, g, t, g');
  }

  lemma LockKeep(ops: seq<Op>, g: Gate, t: nat, g': Gate)
    requires Shape(ops, g) && t < |g.phases| && Step(ops, g, t, g')
    ensures |g'.phases| == |g.phases| && (g'.holder.Some? ==> g'.holder.value < |g'.phases|)
    ensures forall u :: 0 <= u < |g'.phases| ==> (g'.holder == Some(u) <==> HoldsLock(g'.phases[u]))
  {
  }

  lemma BusyKeep(ops: seq<Op>, g: Gate, t: nat, g': Gate)
    requires Shape(ops, g) && t < |g.phases| && Step(ops, g, t, g')
    ensures |g'.busy| == |g'.mine| == |g'.phases| && g'.curr <= |ops|
    ensures forall u :: 0 <= u < |g'.phases| ==> (g'.busy[u] <==> IsBusy(g'.phases[u]))
  {
  }

  /** Nothing but phases and the lock changes, and nobody returns or starts over. */
  ghost predicate Quiet(g: Gate, g': Gate) {
    && g'.busy == g.busy && g'.mine == g.mine && g'.done == g.done && g'.curr == g.curr
    && |g'.phases| == |g.phases|
    && (forall u :: 0 <= u < |g.phases| ==> HasReturned(g'.phases[u]) == HasReturned(g.phases[u]))
  }

  predicate Takes(ops: seq<Op>, g: Gate, t: nat)
    requires t < |g.phases|
  {
    g.phases[t].Fetch? && g.curr != |ops|
  }

  lemma QuietStep(ops: seq<Op>, g: Gate, t: nat, g': Gate)
    requires Shape(ops, g) && t < |g.phases| && Step(ops, g, t, g')
    requires !Takes(ops, g, t) && !g.phases[t].Clear?
    ensures Quiet(g, g')
  {
  }

  lemma AccountedQuiet(g: Gate, g': Gate)
    requires Accounted(g) && Quiet(g, g')
    ensures Accounted(g')
  {
  }

  lemma AccountedTake(ops: seq<Op>, g: Gate, t: nat, g': Gate)
    requires Shape(ops, g) && Accounted(g) && t < |g.phases| && Step(ops, g, t, g') && Takes(ops, g, t)
    ensures Accounted(g')
  {
    forall j | 0 <= j < g'.curr && j !in g'.done
      ensures exists u :: 0 <= u < |g'.phases| && g'.busy[u] && g'.mine[u] == j
    {
      if j == g.curr {
        assert g'.busy[t] && g'.mine[t] == j;
      } else {
        var u :| 0 <= u < |g.phases| && g.busy[u] && g.mine[u] == j;
        assert g'.busy[u] && g'.mine[u] == j;
      }
    }
  }

  lemma AccountedClear(ops: seq<Op>, g: Gate, t: nat, g': Gate)
    requires Shape(ops, g) && Accounted(g) && t < |g.phases| && Step(ops, g, t, g') && g.phases[t].Clear?
    ensures Accounted(g')
  {
    forall j | 0 <= j < g'.curr && j !in g'.done
      ensures exists u :: 0 <= u < |g'.phases| && g'.busy[u] && g'.mine[u] == j
    {
      var u :| 0 <= u < |g.phases| && g.busy[u] && g.mine[u] == j;
      assert u != t && g'.busy[u] && g'.mine[u] == j;
    }
  }

  lemma AccountedKeep(ops: seq<Op>, g: Gate, t: nat, g': Gate)
    requires Shape(ops, g) && Accounted(g) && t < |g.phases| && Step(ops, g, t, g')
    ensures Accounted(g')
  {
    if Takes(ops, g, t) {
      AccountedTake(ops, g, t, g');
    } else if g.phases[t].Clear? {
      AccountedClear(ops, g, t, g');
    } else {
      QuietStep(ops, g, t, g');
      AccountedQuiet(g, g');
    }
  }

  /** A full scan under the lock: every earlier operation on the key has returned. */
  lemma Admission(ops: seq<Op>, g: Gate, t: nat)
    requires Inv(ops, g) && Increasing(ops) && t < |g.phases| && g.phases[t] == Scan(THREADS)
    ensures Clearance(ops, g, t)
  {
    forall j | 0 <= j < g.mine[t] && ops[j].key == ops[g.mine[t]].key ensures j in g.done {
      if j !in g.done {
        var u :| 0 <= u < |g.phases| && g.busy[u] && g.mine[u] == j;
        assert Blocks(ops, g, u, t);
        assert false;
      }
    }
  }

  /** While a thread scans, no other thread does anything here. */
  lemma ScanAlone(ops: seq<Op>, g: Gate, t: nat, g': Gate, u: nat)
    requires Shape(ops, g) && t < |g.phases| && Step(ops, g, t, g') && u < |g.phases| && g'.phases[u].Scan?
    ensures u == t
  {
  }

  lemma ScanKeep(ops: seq<Op>, g: Gate, t: nat, g': Gate, v: nat)
    requires Shape(ops, g) && Admitted(ops, g) && t < |g.phases| && Step(ops, g, t, g')
    requires g'.phases[t].Scan? && v < g'.phases[t].u
    ensures !Blocks(ops, g', v, t)
  {
    assert g.phases[t].Scan? && g'.busy == g.busy && g'.mine == g.mine;
    assert !Blocks(ops, g, v, t);
  }

  lemma ClearanceKeep(ops: seq<Op>, g: Gate, t: nat, g': Gate, u: nat)
    requires Inv(ops, g) && Increasing(ops) && t < |g.phases| && Step(ops, g, t, g')
    requires u < |g.phases| && g'.phases[u].Run?
    ensures Clearance(ops, g', u)
  {
    if u == t {
      Admission(ops, g, t);
    } else {
      assert g.phases[u].Run? && Clearance(ops, g, u);
      assert g'.mine[u] == g.mine[u] && g'.done == g.done;
    }
  }

  lemma AdmittedKeep(ops: seq<Op>, g: Gate, t: nat, g': Gate)
    requires Inv(ops, g) && Increasing(ops) && t < |g.phases| && Step(ops, g, t, g')
    ensures Admitted(ops, g')
  {
    ShapeKeep(ops, g, t, g');
    forall u | 0 <= u < |g'.phases| && g'.phases[u].Scan?
      ensures g'.phases[u].u <= THREADS && forall v :: 0 <= v < g'.phases[u].u ==> !Blocks(ops, g', v, u)
    {
      ScanAlone(ops, g, t, g', u);
      forall v | 0 <= v < g'.phases[u].u ensures !Blocks(ops, g', v, u) {
        ScanKeep(ops, g, t, g', v);
      }
    }
    forall u | 0 <= u < |g'.phases| && g'.phases[u].Run? ensures Clearance(ops, g', u) {
      ClearanceKeep(ops, g, t, g', u);
    }
  }

  lemma WillWakeKeep(ops: seq<Op>, g: Gate, t: nat, g': Gate, s: nat)
    requires Shape(ops, g) && NoneLost(ops, g) && t < |g.phases| && Step(ops, g, t, g')
    requires s < |g.phases| && s != t && g'.phases[s].Wait?
    ensures WillWake(ops, g', s)
  {
    assert g.phases[s].Wait?;
    var u :| 0 <= u < |g.phases| && Blocks(ops, g, u, s) && !g.phases[u].Clear?;
    assert !g.phases[t].Signal?;
    assert Blocks(ops, g', u, s) && !g'.phases[u].Clear?;
  }

  lemma NoneLostKeep(ops: seq<Op>, g: Gate, t: nat, g': Gate)
    requires Inv(ops, g) && t < |g.phases| && Step(ops, g, t, g')
    ensures NoneLost(ops, g')
  {
    forall s | 0 <= s < |g'.phases| && g'.phases[s].Wait? ensures WillWake(ops, g', s) {
      if s == t {
        var u := g.phases[t].u;
        assert Blocks(ops, g', u, t) && !g'.phases[u].Clear?;
      } else {
        WillWakeKeep(ops, g, t, g', s);
      }
    }
  }

  /** Every step at the gate keeps the invariant. */
  lemma StepKeeps(ops: seq<Op>, g: Gate, t: nat, g': Gate)
    requires Inv(ops, g) && Increasing(ops) && t < |g.phases| && Step(ops, g, t, g')
    ensures Inv(ops, g')
  {
    ShapeKeep(ops, g, t, g');
    AccountedKeep(ops, g, t, g');
    AdmittedKeep(ops, g, t, g');
    NoneLostKeep(ops, g, t, g');
  }

  /** A busy thread that is not at the lock moves on, to a place where it is neither at
      the lock, nor waiting, nor inside the table. */
  ghost predicate MovesOn(g: Gate, t: nat, g': Gate) {
    && t < |g.phases| && g'.busy == g.busy && g'.mine == g.mine && g'.holder == g.holder && g'.curr == g.curr
    && g.done <= g'.done && |g'.phases| == |g.phases| && g'.phases == g.phases[t := g'.phases[t]]
    && (g.phases[t].Wait? || g.phases[t].Run?)
    && (g'.phases[t].Woken? || g'.phases[t].AtDone?)
  }

  lemma AdmittedMovesOn(ops: seq<Op>, g: Gate, t: nat, g': Gate)
    requires Shape(ops, g) && Admitted(ops, g) && MovesOn(g, t, g')
    ensures Shape(ops, g') && Admitted(ops, g')
  {
    forall u, v | 0 <= u < |g'.phases| && g'.phases[u].Scan? && 0 <= v < g'.phases[u].u ensures !Blocks(ops, g', v, u) {
      assert !Blocks(ops, g, v, u);
    }
    forall u | 0 <= u < |g'.phases| && g'.phases[u].Run? ensures Clearance(ops, g', u) {
      assert g.phases[u].Run? && Clearance(ops, g, u);
    }
  }

  lemma NoneLostMovesOn(ops: seq<Op>, g: Gate, t: nat, g': Gate)
    requires Shape(ops, g) && NoneLost(ops, g) && MovesOn(g, t, g')
    ensures NoneLost(ops, g')
  {
    forall s | 0 <= s < |g'.phases| && g'.phases[s].Wait? ensures WillWake(ops, g', s) {
      assert g.phases[s].Wait?;
      var u :| 0 <= u < |g.phases| && Blocks(ops, g, u, s) && !g.phases[u].Clear?;
      assert Blocks(ops, g', u, s) && !g'.phases[u].Clear?;
    }
  }

  lemma FinishKeeps(ops: seq<Op>, g: Gate, t: nat, g': Gate)
    requires Inv(ops, g) && Finish(g, t, g')
    ensures Inv(ops, g')
  {
    AdmittedMovesOn(ops, g, t, g');
    NoneLostMovesOn(ops, g, t, g');
    AccountedFinish(ops, g, t, g');
  }

  lemma AccountedFinish(ops: seq<Op>, g: Gate, t: nat, g': Gate)
    requires Shape(ops, g) && Accounted(g) && Finish(g, t, g')
    ensures Accounted(g')
  {
  }

  lemma SpuriousKeeps(ops: seq<Op>, g: Gate, t: nat, g': Gate)
    requires Inv(ops, g) && Spurious(g, t, g')
    ensures Inv(ops, g')
  {
    AdmittedMovesOn(ops, g, t, g');
    NoneLostMovesOn(ops, g, t, g');
    AccountedQuiet(g, g');
  }

  // ----- what the gate is for

  /** Two operations on one key are never inside the table at the same time. */
  lemma RunExclusive(ops: seq<Op>, g: Gate, t: nat, u: nat)
    requires Inv(ops, g) && t < |g.phases| && u < |g.phases| && t != u
    requires g.phases[t].Run? && g.phases[u].Run?
    ensures g.mine[t] < |ops| && g.mine[u] < |ops| && ops[g.mine[t]].key != ops[g.mine[u]].key
  {
    assert g.busy[t] && g.busy[u] && g.mine[t] != g.mine[u];
    assert Clearance(ops, g, t) && Clearance(ops, g, u);
  }

  /** Operations on one key return in stream order. */
  lemma InOrder(ops: seq<Op>, g: Gate, t: nat, g': Gate, j: nat)
    requires Inv(ops, g) && Finish(g, t, g') && j < g.mine[t] < |ops| && ops[j].key == ops[g.mine[t]].key
    ensures j in g.done && g.mine[t] !in g.done
  {
    assert Clearance(ops, g, t);
  }

  /** The operation with the least id in progress is never held back: nobody blocks its
      thread, and its thread is not waiting. */
  lemma LeastNeverWaits(ops: seq<Op>, g: Gate, t: nat)
    requires Inv(ops, g) && t < |g.phases| && g.busy[t] && g.mine[t] < |ops|
    requires forall u :: 0 <= u < |g.phases| && g.busy[u] && g.mine[u] < |ops| ==>
               ops[g.mine[t]].id <= ops[g.mine[u]].id
    ensures !g.phases[t].Wait? && forall u :: !Blocks(ops, g, u, t)
  {
    assert g.phases[t].Wait? ==> WillWake(ops, g, t);
  }

  /** An earlier operation on the key of thread t's is in progress. */
  ghost predicate Behind(ops: seq<Op>, g: Gate, t: nat) {
    && t < |g.mine|
    && exists u ::
         && 0 <= u < |g.phases| && u != t && u < |g.busy| && u < |g.mine| && g.busy[u]
         && g.mine[u] < g.mine[t] < |ops| && ops[g.mine[u]].key == ops[g.mine[t]].key
  }

  lemma BlocksBehind(ops: seq<Op>, g: Gate, u: nat, t: nat)
    requires Increasing(ops) && |g.busy| == |g.phases|
    ensures Blocks(ops, g, u, t) ==> Behind(ops, g, t)
  {
  }

  /** A thread is held back only by an earlier operation on its own key. */
  lemma WaitsForKey(ops: seq<Op>, g: Gate, t: nat, g': Gate)
    requires Inv(ops, g) && Increasing(ops) && t < |g.phases| && Step(ops, g, t, g') && g'.phases[t].Wait?
    ensures Behind(ops, g, t) && Behind(ops, g', t)
  {
    BlocksBehind(ops, g, g.phases[t].u, t);
    BlocksBehind(ops, g', g.phases[t].u, t);
  }

  /** And as long as it waits that one is in progress. */
  lemma WaitersBehind(ops: seq<Op>, g: Gate, t: nat)
    requires Inv(ops, g) && Increasing(ops) && t < |g.phases| && g.phases[t].Wait?
    ensures Behind(ops, g, t)
  {
    assert WillWake(ops, g, t);
    var u :| 0 <= u < |g.phases| && Blocks(ops, g, u, t) && !g.phases[u].Clear?;
    BlocksBehind(ops, g, u, t);
  }

  ghost predicate OwnSteps(ops: seq<Op>, gs: seq<Gate>, t: nat) {
    && |gs| > 0
    && forall n :: 0 <= n < |gs| - 1 ==>
         && t < |gs[n].phases| && |gs[n].busy| == |gs[n].mine| == |gs[n].phases|
         && Step(ops, gs[n], t, gs[n + 1])
  }

  /** A thread that no earlier operation on its key holds back goes through by its own
      steps, whatever else is in progress. */
  lemma {:induction false} GoesThrough(ops: seq<Op>, g: Gate, t: nat) returns (gs: seq<Gate>)
    requires |g.busy| == |g.mine| == |g.phases| && t < |g.phases| && g.phases[t].Scan? && g.phases[t].u <= THREADS
    requires Increasing(ops) && !Behind(ops, g, t)
    ensures OwnSteps(ops, gs, t) && gs[0] == g && |gs[|gs| - 1].phases| == |g.phases| && gs[|gs| - 1].phases[t].Run?
    ensures |gs| == THREADS - g.phases[t].u + 2
    decreases THREADS - g.phases[t].u
  {
    var u := g.phases[t].u;
    if u == THREADS {
      gs := [g, g.(holder := None, phases := g.phases[t := Run])];
    } else {
      BlocksBehind(ops, g, u, t);
      var g' := g.(phases := g.phases[t := Scan(u + 1)]);
      var rest := GoesThrough(ops, g', t);
      gs := [g] + rest;
      forall n | 0 <= n < |gs| - 1
        ensures t < |gs[n].phases| && |gs[n].busy| == |gs[n].mine| == |gs[n].phases| && Step(ops, gs[n], t, gs[n + 1])
      {
        if n > 0 {
          assert gs[n] == rest[n - 1] && gs[n + 1] == rest[n];
        }
      }
    }
  }

  /** A thread that can act at the gate: it holds the lock, or wants it while it is free. */
  predicate CanAct(g: Gate, t: nat)
    requires t < |g.phases|
  {
    HoldsLock(g.phases[t])
    || (g.holder == None && (g.phases[t].AtRead? || g.phases[t].Woken? || g.phases[t].AtDone?))
  }

  lemma CanActSteps(ops: seq<Op>, g: Gate, t: nat) returns (g': Gate)
    requires Shape(ops, g) && t < |g.phases| && CanAct(g, t)
    ensures Step(ops, g, t, g')
  {
    match g.phases[t]
    case AtRead => g' := g.(holder := Some(t), phases := g.phases[t := Fetch]);
    case Fetch =>
      g' := if g.curr == |ops| then g.(holder := None, phases := g.phases[t := Exited])
            else g.(curr := g.curr + 1, busy := g.busy[t := true], mine := g.mine[t := g.curr],
                    phases := g.phases[t := Scan(0)]);
    case Scan(u) =>
      g' := if u == THREADS then g.(holder := None, phases := g.phases[t := Run])
            else if Blocks(ops, g, u, t) then g.(holder := None, phases := g.phases[t := Wait])
            else g.(phases := g.phases[t := Scan(u + 1)]);
    case Woken => g' := g.(holder := Some(t), phases := g.phases[t := Scan(0)]);
    case AtDone => g' := g.(holder := Some(t), phases := g.phases[t := Signal]);
    case Signal =>
      g' := g.(phases := seq(|g.phases|, u requires 0 <= u < |g.phases| =>
                               if u == t then Clear else Awake(g.phases[u])));
    case Clear => g' := g.(busy := g.busy[t := false], phases := g.phases[t := Leave]);
    case Leave => g' := g.(holder := None, phases := g.phases[t := AtRead]);
  }

  /** If nobody can act at the gate and nobody is in the table, everybody has exited:
      the waiting thread with the least operation would have nobody to wait for. */
  lemma {:induction false} NoDeadlock(ops: seq<Op>, g: Gate, t: nat)
    requires Inv(ops, g)
    requires forall u :: 0 <= u < |g.phases| ==> !CanAct(g, u) && !g.phases[u].Run?
    requires t < |g.phases|
    ensures g.phases[t].Exited?
    decreases if g.mine[t] < |ops| then ops[g.mine[t]].id else 0
  {
    assert !CanAct(g, t);
    if g.holder.Some? {
      assert CanAct(g, g.holder.value);
    }
    if g.phases[t].Wait? {
      assert WillWake(ops, g, t);
      var u :| 0 <= u < |g.phases| && Blocks(ops, g, u, t) && !g.phases[u].Clear?;
      NoDeadlock(ops, g, u);
    }
  }
}
