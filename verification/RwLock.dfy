/** The reader-writer lock of Assignment4/rwlock.c: one signed 64-bit word, changed
    only by `lock add`, in retry loops that any number of threads run at once.

    The lock is a state machine: one step is one atomic add by one thread, or a
    thread's choice of what to call next.  Arithmetic wraps at 64 bits, as the
    instruction does. */
module RwLock {

  const WORD: int := 0x1_0000_0000_0000_0000
  const HALF: int := 0x8000_0000_0000_0000

  /** The amount a writer takes from the word, which is also its initial value. */
  const WRITER: int := 0x1_0000_0000_0000

  /** The largest number of threads for which the lock excludes. */
  const LIMIT: nat := 0x8001

  /** Two's complement: the signed 64-bit value that differs from x by a multiple of 2^64. */
  function Wrap(x: int): (v: int)
    ensures -HALF <= v < HALF
    decreases if x < -HALF then -x else if x >= HALF then x else 0
  {
    if x < -HALF then Wrap(x + WORD) else if x >= HALF then Wrap(x - WORD) else x
  }

  lemma WrapShift(x: int)
    ensures Wrap(x + WORD) == Wrap(x)
  {
  }

  /** Adding to a wrapped value and wrapping again is adding to the unwrapped value. */
  lemma {:induction false} WrapAdd(x: int, d: int)
    ensures Wrap(Wrap(x) + d) == Wrap(x + d)
    decreases if x < -HALF then -x else if x >= HALF then x else 0
  {
    if x < -HALF {
      WrapAdd(x + WORD, d);
      WrapShift(x + d);
    } else if x >= HALF {
      WrapAdd(x - WORD, d);
      WrapShift(x + d - WORD);
    }
  }

  /** The new word, and -1, 0 or 1 as the processor's sign and zero flags report it. */
  function AtomicAdd(value: int, delta: int): (int, int) {
    var v := Wrap(value + delta);
    (v, if v < 0 then -1 else if v == 0 then 0 else 1)
  }

  /** Where a thread is: outside (Idle), about to subtract (Want), about to give back
      what it subtracted after a failed attempt (Back), or in its critical section. */
  datatype Pc = Idle | WWant | WBack | WHeld | RWant | RBack | RHeld

  datatype State = State(value: int, pcs: seq<Pc>)

  function Init(n: nat): State {
    State(WRITER, seq(n, _ => Idle))
  }

  predicate ThreadStep(s: State, t: nat, s': State)
    requires t < |s.pcs|
  {
    match s.pcs[t]
    case Idle =>
      s' == s.(pcs := s.pcs[t := WWant]) || s' == s.(pcs := s.pcs[t := RWant])
    case WWant =>
      var (v, sign) := AtomicAdd(s.value, -WRITER);
      s' == State(v, s.pcs[t := if sign != 0 then WBack else WHeld])
    case WBack =>
      s' == State(AtomicAdd(s.value, WRITER).0, s.pcs[t := WWant])
    case WHeld =>
      s' == State(AtomicAdd(s.value, WRITER).0, s.pcs[t := Idle])
    case RWant =>
      var (v, sign) := AtomicAdd(s.value, -1);
      s' == State(v, s.pcs[t := if sign == -1 then RBack else RHeld])
    case RBack =>
      s' == State(AtomicAdd(s.value, 1).0, s.pcs[t := RWant])
    case RHeld =>
      s' == State(AtomicAdd(s.value, 1).0, s.pcs[t := Idle])
  }

  ghost predicate Step(s: State, s': State) {
    exists t: nat :: t < |s.pcs| && ThreadStep(s, t, s')
  }

  ghost predicate Steps(ss: seq<State>) {
    forall i :: 0 <= i < |ss| - 1 ==> Step(ss[i], ss[i + 1])
  }

  /** A run of n threads: any interleaving, any length. */
  ghost predicate Run(n: nat, ss: seq<State>) {
    |ss| > 0 && ss[0] == Init(n) && Steps(ss)
  }

  function Last(ss: seq<State>): State
    requires |ss| > 0
  {
    ss[|ss| - 1]
  }

  /** A writer in its critical section is alone. */
  ghost predicate Exclusive(s: State) {
    forall i, j :: 0 <= i < |s.pcs| && 0 <= j < |s.pcs| && i != j && s.pcs[i] == WHeld
      ==> s.pcs[j] != WHeld && s.pcs[j] != RHeld
  }

  // ----- counting threads

  /** How many threads are at one of the given places. */
  function Count(pcs: seq<Pc>, at: set<Pc>): (c: nat)
    ensures c <= |pcs|
  {
    if pcs == [] then 0 else (if pcs[0] in at then 1 else 0) + Count(pcs[1..], at)
  }

  const WRITING: set<Pc> := {WBack, WHeld}
  const READING: set<Pc> := {RBack, RHeld}

  lemma {:induction false} CountUpdate(pcs: seq<Pc>, t: nat, pc: Pc, at: set<Pc>)
    requires t < |pcs|
    ensures Count(pcs[t := pc], at)
         == Count(pcs, at) - (if pcs[t] in at then 1 else 0) + (if pc in at then 1 else 0)
  {
    if t == 0 {
      assert pcs[t := pc][1..] == pcs[1..];
    } else {
      assert pcs[t := pc][1..] == pcs[1..][t - 1 := pc];
      CountUpdate(pcs[1..], t - 1, pc, at);
    }
  }

  lemma {:induction false} CountOne(pcs: seq<Pc>, t: nat, at: set<Pc>)
    requires t < |pcs| && pcs[t] in at
    ensures Count(pcs, at) >= 1
  {
    CountUpdate(pcs, t, pcs[t], at);
    if t > 0 {
      CountOne(pcs[1..], t - 1, at);
    }
  }

  lemma CountTwo(pcs: seq<Pc>, t: nat, u: nat, at: set<Pc>)
    requires t < u < |pcs| && pcs[t] in at && pcs[u] in at
    ensures Count(pcs, at) >= 2
    decreases t
  {
    if t == 0 {
      CountOne(pcs[1..], u - 1, at);
    } else {
      CountTwo(pcs[1..], t - 1, u - 1, at);
    }
  }

  lemma {:induction false} CountNone(pcs: seq<Pc>, at: set<Pc>)
    requires forall i :: 0 <= i < |pcs| ==> pcs[i] !in at
    ensures Count(pcs, at) == 0
  {
    if pcs != [] {
      CountNone(pcs[1..], at);
    }
  }

  lemma {:induction false} CountDisjoint(pcs: seq<Pc>)
    ensures Count(pcs, WRITING) + Count(pcs, READING) <= |pcs|
  {
    if pcs != [] {
      CountDisjoint(pcs[1..]);
    }
  }

  // ----- what the word says

  /** The word decodes to the numbers of writers and readers that have subtracted and
      not given back. */
  ghost predicate Decodes(s: State) {
    s.value == Wrap(Encoded(s.pcs))
  }

  function Encoded(pcs: seq<Pc>): int {
    WRITER * (1 - Count(pcs, WRITING)) - Count(pcs, READING)
  }

  /** What a step adds to the word, by where the thread goes from and to. */
  lemma EncodedUpdate(pcs: seq<Pc>, t: nat, pc: Pc)
    requires t < |pcs|
    ensures Encoded(pcs[t := pc]) == Encoded(pcs) + Taken(pcs[t]) - Taken(pc)
  {
    CountUpdate(pcs, t, pc, WRITING);
    CountUpdate(pcs, t, pc, READING);
  }

  function Taken(pc: Pc): int {
    if pc in WRITING then WRITER else if pc in READING then 1 else 0
  }

  lemma StepValue(s: State, t: nat, s': State)
    requires -HALF <= s.value < HALF && t < |s.pcs| && ThreadStep(s, t, s')
    ensures s'.pcs == s.pcs[t := s'.pcs[t]]
    ensures s'.value == Wrap(s.value + (Taken(s.pcs[t]) - Taken(s'.pcs[t])))
  {
  }

  lemma StepDecodes(s: State, t: nat, s': State)
    requires Decodes(s) && t < |s.pcs| && ThreadStep(s, t, s')
    ensures Decodes(s') && |s'.pcs| == |s.pcs|
  {
    var d := Taken(s.pcs[t]) - Taken(s'.pcs[t]);
    StepValue(s, t, s');
    EncodedUpdate(s.pcs, t, s'.pcs[t]);
    WrapAdd(Encoded(s.pcs), d);
  }

  /** In every run of any number of threads, after every step, the word is 2^48 times
      one minus the outstanding writers, less the outstanding readers. */
  lemma {:induction false} RunDecodes(n: nat, ss: seq<State>)
    requires Run(n, ss)
    ensures Decodes(Last(ss)) && |Last(ss).pcs| == n
  {
    if |ss| == 1 {
      CountNone(ss[0].pcs, WRITING);
      CountNone(ss[0].pcs, READING);
    } else {
      var front := ss[..|ss| - 1];
      RunDecodes(n, front);
      assert Step(ss[|ss| - 2], ss[|ss| - 1]);
      var t: nat :| t < |Last(front).pcs| && ThreadStep(Last(front), t, Last(ss));
      StepDecodes(Last(front), t, Last(ss));
    }
  }

  // ----- exclusion

  lemma StepExclusive(s: State, t: nat, s': State)
    requires Decodes(s) && Exclusive(s) && |s.pcs| <= LIMIT
    requires t < |s.pcs| && ThreadStep(s, t, s')
    ensures Exclusive(s')
  {
    StepDecodes(s, t, s');
    CountDisjoint(s'.pcs);
    forall i, j | 0 <= i < |s'.pcs| && 0 <= j < |s'.pcs| && i != j && s'.pcs[i] == WHeld
      ensures s'.pcs[j] != WHeld && s'.pcs[j] != RHeld
    {
      CountOne(s'.pcs, i, WRITING);
      if s'.pcs[j] == WHeld {
        CountTwo(s'.pcs, if i < j then i else j, if i < j then j else i, WRITING);
      } else if s'.pcs[j] == RHeld {
        CountOne(s'.pcs, j, READING);
      }
    }
  }

  lemma {:induction false} RunExclusive(n: nat, ss: seq<State>)
    requires Run(n, ss) && n <= LIMIT
    ensures Exclusive(Last(ss))
  {
    if |ss| > 1 {
      var front := ss[..|ss| - 1];
      RunExclusive(n, front);
      RunDecodes(n, front);
      assert Step(ss[|ss| - 2], ss[|ss| - 1]);
      var t: nat :| t < |Last(front).pcs| && ThreadStep(Last(front), t, Last(ss));
      StepExclusive(Last(front), t, Last(ss));
    }
  }

  // ----- admission

  /** Multiples of 2^64 wrap to the same value. */
  lemma {:induction false} WrapMany(x: int, k: int)
    ensures Wrap(x + WORD * k) == Wrap(x)
    decreases if k < 0 then -k else k
  {
    if k > 0 {
      WrapMany(x, k - 1);
      WrapShift(x + WORD * (k - 1));
    } else if k < 0 {
      WrapMany(x, k + 1);
      WrapShift(x + WORD * k);
    }
  }

  /** What is left of the word when w writers and r readers have subtracted: with 2^16 writers
      it comes round. */
  lemma WrapEncoded(w: nat, r: nat)
    requires r < WRITER
    ensures var b := (0x1_0000 - w % 0x1_0000) % 0x1_0000;
            Wrap(-WRITER * w + (WRITER - 1 - r)) == WRITER * (if b < 0x8000 then b else b - 0x1_0000) + (WRITER - 1 - r)
  {
    var k, m := w / 0x1_0000, w % 0x1_0000;
    var b := (0x1_0000 - m) % 0x1_0000;
    var v := WRITER * (if b < 0x8000 then b else b - 0x1_0000) + (WRITER - 1 - r);
    var d := if b < 0x8000 then (if m == 0 then -k else -k - 1) else -k;
    assert -WRITER * w + (WRITER - 1 - r) == v + WORD * d;
    WrapMany(v, d);
  }

  /** When it is negative. */
  lemma WrapSign(w: nat, r: nat)
    requires r < WRITER
    ensures Wrap(WRITER * (1 - w) - r - 1) < 0 <==> 0 < w % 0x1_0000 <= 0x8000
  {
    WrapEncoded(w, r);
    assert WRITER * (1 - w) - r - 1 == -WRITER * w + (WRITER - 1 - r);
  }

  /** When what is left is nothing. */
  lemma WrapTaken(w: nat, r: nat)
    requires r < WRITER
    ensures Wrap(-WRITER * w - r) == 0 <==> r == 0 && w % 0x1_0000 == 0
  {
    if r > 0 {
      WrapEncoded(w + 1, r - 1);
      assert -WRITER * (w + 1) + (WRITER - 1 - (r - 1)) == -WRITER * w - r;
    } else {
      var k, m := w / 0x1_0000, w % 0x1_0000;
      WrapMany(-WRITER * m, -k);
      assert -WRITER * w == -WRITER * m + WORD * -k;
      if m > 0x8000 {
        WrapShift(-WRITER * m);
      }
    }
  }

  /** A thread that has taken nothing leaves at most the others. */
  lemma OthersCount(pcs: seq<Pc>, t: nat)
    requires t < |pcs| && pcs[t] !in WRITING && pcs[t] !in READING
    ensures Count(pcs, WRITING) + Count(pcs, READING) < |pcs|
  {
    CountUpdate(pcs, t, WHeld, WRITING);
    CountUpdate(pcs, t, WHeld, READING);
    CountDisjoint(pcs[t := WHeld]);
  }

  /** read_lock lets the reader in exactly when the number of writers in or trying is 0 modulo
      2^16, or has wrapped past 2^15: for any number of threads up to 2^48. */
  lemma ReaderEnters(n: nat, ss: seq<State>, t: nat, s': State)
    requires Run(n, ss) && n <= WRITER && t < |Last(ss).pcs| && Last(ss).pcs[t] == RWant && ThreadStep(Last(ss), t, s')
    ensures |s'.pcs| == n
    ensures var w := Count(Last(ss).pcs, WRITING) % 0x1_0000;
            s'.pcs[t] == if w == 0 || w > 0x8000 then RHeld else RBack
  {
    var s := Last(ss);
    RunDecodes(n, ss);
    OthersCount(s.pcs, t);
    WrapAdd(Encoded(s.pcs), -1);
    WrapSign(Count(s.pcs, WRITING), Count(s.pcs, READING));
  }

  /** write_lock lets the writer in exactly when no reader is in or trying and the number of
      writers in or trying is 0 modulo 2^16. */
  lemma WriterEnters(n: nat, ss: seq<State>, t: nat, s': State)
    requires Run(n, ss) && n <= WRITER && t < |Last(ss).pcs| && Last(ss).pcs[t] == WWant && ThreadStep(Last(ss), t, s')
    ensures |s'.pcs| == n
    ensures s'.pcs[t] == if Count(Last(ss).pcs, READING) == 0 && Count(Last(ss).pcs, WRITING) % 0x1_0000 == 0 then WHeld
                         else WBack
  {
    var s := Last(ss);
    RunDecodes(n, ss);
    OthersCount(s.pcs, t);
    WrapAdd(Encoded(s.pcs), -WRITER);
    WrapTaken(Count(s.pcs, WRITING), Count(s.pcs, READING));
  }

  /** So with at most 2^15 + 1 threads readers share, and a writer waits for all. */
  lemma Admission(n: nat, ss: seq<State>, t: nat, s': State)
    requires Run(n, ss) && n <= LIMIT && t < |Last(ss).pcs| && ThreadStep(Last(ss), t, s')
    ensures |s'.pcs| == n
    ensures Last(ss).pcs[t] == RWant ==> (s'.pcs[t] == RHeld <==> Count(Last(ss).pcs, WRITING) == 0)
    ensures Last(ss).pcs[t] == WWant ==>
              (s'.pcs[t] == WHeld <==> Count(Last(ss).pcs, WRITING) == 0 && Count(Last(ss).pcs, READING) == 0)
  {
    RunDecodes(n, ss);
    if Last(ss).pcs[t] == RWant {
      OthersCount(Last(ss).pcs, t);
      ReaderEnters(n, ss, t, s');
    } else if Last(ss).pcs[t] == WWant {
      OthersCount(Last(ss).pcs, t);
      WriterEnters(n, ss, t, s');
    } else {
      StepDecodes(Last(ss), t, s');
    }
  }

  /** The first k threads read. */
  function Readers(n: nat, k: nat): State {
    State(WRITER - k, seq(n, i => if i < k then RHeld else Idle))
  }

  /** Any number of readers can be in together. */
  lemma {:induction false} ReadersShare(n: nat, k: nat) returns (ss: seq<State>)
    requires k <= n && k <= WRITER
    ensures Run(n, ss) && Last(ss) == Readers(n, k)
    ensures forall t :: 0 <= t < k ==> Last(ss).pcs[t] == RHeld
  {
    if k == 0 {
      ss := [Init(n)];
      assert Init(n).pcs == Readers(n, 0).pcs;
    } else {
      ss := ReadersShare(n, k - 1);
      var s := Readers(n, k - 1);
      var s1 := s.(pcs := s.pcs[k - 1 := RWant]);
      Extend(n, ss, k - 1, s1);
      ss := ss + [s1];
      assert Readers(n, k).pcs == s1.pcs[k - 1 := RHeld];
      Extend(n, ss, k - 1, Readers(n, k));
      ss := ss + [Readers(n, k)];
    }
  }

  // ----- one thread too many

  lemma Extend(n: nat, ss: seq<State>, t: nat, s': State)
    requires Run(n, ss) && t < |Last(ss).pcs| && ThreadStep(Last(ss), t, s')
    ensures Run(n, ss + [s'])
  {
    forall i | 0 <= i < |ss + [s']| - 1
      ensures Step((ss + [s'])[i], (ss + [s'])[i + 1])
    {
      if i < |ss| - 1 {
        assert Step(ss[i], ss[i + 1]);
      }
    }
  }

  /** Thread 0 holds the write lock; threads 1 up to k have subtracted and failed. */
  function Crowd(n: nat, k: nat): State {
    State(-WRITER * k, seq(n, i => if i == 0 then WHeld else if i <= k then WBack else Idle))
  }

  lemma {:induction false} ReachCrowd(n: nat, k: nat) returns (ss: seq<State>)
    requires k < n && k < LIMIT
    ensures Run(n, ss) && Last(ss) == Crowd(n, k)
  {
    if k == 0 {
      var s1 := State(WRITER, Init(n).pcs[0 := WWant]);
      ss := [Init(n)];
      Extend(n, ss, 0, s1);
      ss := ss + [s1];
      assert Crowd(n, 0).pcs == s1.pcs[0 := WHeld];
      Extend(n, ss, 0, Crowd(n, 0));
      ss := ss + [Crowd(n, 0)];
    } else {
      ss := ReachCrowd(n, k - 1);
      var s := Crowd(n, k - 1);
      var s1 := s.(pcs := s.pcs[k := WWant]);
      Extend(n, ss, k, s1);
      ss := ss + [s1];
      assert Crowd(n, k).pcs == s1.pcs[k := WBack];
      Extend(n, ss, k, Crowd(n, k));
      ss := ss + [Crowd(n, k)];
    }
  }

  /** With one thread more than the limit there is a run in which 2^15 failed writers
      and the holder push the word to -2^63, and a reader's decrement wraps it to a
      positive number: reader and writer are in together. */
  lemma OneTooMany(n: nat) returns (ss: seq<State>)
    requires n > LIMIT
    ensures Run(n, ss) && !Exclusive(Last(ss))
  {
    ss := ReachCrowd(n, LIMIT - 1);
    var s := Crowd(n, LIMIT - 1);
    var s1 := s.(pcs := s.pcs[LIMIT := RWant]);
    Extend(n, ss, LIMIT, s1);
    ss := ss + [s1];
    assert Wrap(s1.value - 1) == HALF - 1;
    var s2 := State(HALF - 1, s1.pcs[LIMIT := RHeld]);
    Extend(n, ss, LIMIT, s2);
    ss := ss + [s2];
    assert s2.pcs[0] == WHeld && s2.pcs[LIMIT] == RHeld;
  }

  /** The lock excludes in every run of n threads exactly when n is at most 2^15 + 1. */
  lemma ExclusionLimit(n: nat)
    ensures (forall ss :: Run(n, ss) ==> Exclusive(Last(ss))) <==> n <= LIMIT
  {
    if n <= LIMIT {
      forall ss | Run(n, ss) ensures Exclusive(Last(ss)) {
        RunExclusive(n, ss);
      }
    } else {
      var ss := OneTooMany(n);
    }
  }

  // ----- possible progress

  const OUTSTANDING: set<Pc> := WRITING + READING

  /** Where a thread is once it has given back whatever it had taken. */
  function Settled(pc: Pc): Pc {
    match pc
    case WBack => WWant
    case RBack => RWant
    case WHeld => Idle
    case RHeld => Idle
    case _ => pc
  }

  function AllSettled(pcs: seq<Pc>): seq<Pc> {
    seq(|pcs|, i requires 0 <= i < |pcs| => Settled(pcs[i]))
  }

  /** From the end of any run the word can return to 2^48: each outstanding thread
      takes one step, and no other thread moves. */
  lemma {:induction false} CanDrain(n: nat, ss: seq<State>) returns (tt: seq<State>)
    requires Run(n, ss)
    ensures ss <= tt && Run(n, tt)
    ensures Last(tt).value == WRITER
    ensures Last(tt).pcs == AllSettled(Last(ss).pcs)
    decreases Count(Last(ss).pcs, OUTSTANDING)
  {
    RunDecodes(n, ss);
    var s := Last(ss);
    if i :| 0 <= i < n && s.pcs[i] in OUTSTANDING {
      var d := if s.pcs[i] in WRITING then WRITER else 1;
      var s1 := State(AtomicAdd(s.value, d).0, s.pcs[i := Settled(s.pcs[i])]);
      Extend(n, ss, i, s1);
      CountUpdate(s.pcs, i, Settled(s.pcs[i]), OUTSTANDING);
      CountOne(s.pcs, i, OUTSTANDING);
      tt := CanDrain(n, ss + [s1]);
      assert AllSettled(s1.pcs) == AllSettled(s.pcs);
    } else {
      tt := ss;
      CountNone(s.pcs, WRITING);
      CountNone(s.pcs, READING);
      assert s.pcs == AllSettled(s.pcs);
    }
  }

  /** No reachable state is a dead end for any waiting thread: some finite schedule
      first returns the word to 2^48 and then lets the chosen thread in. */
  lemma CanAcquire(n: nat, ss: seq<State>, t: nat) returns (mid: seq<State>, tt: seq<State>)
    requires Run(n, ss) && t < n && |Last(ss).pcs| == n
    requires Last(ss).pcs[t] in {WWant, WBack, RWant, RBack}
    ensures ss <= mid && mid <= tt && Run(n, mid) && Run(n, tt)
    ensures Last(mid).value == WRITER
    ensures |Last(tt).pcs| == n
    ensures Last(tt).pcs[t] == if Last(ss).pcs[t] in {WWant, WBack} then WHeld else RHeld
  {
    mid := CanDrain(n, ss);
    var s := Last(mid);
    assert s.pcs[t] == Settled(Last(ss).pcs[t]);
    var s1 := if s.pcs[t] == WWant then State(0, s.pcs[t := WHeld]) else State(WRITER - 1, s.pcs[t := RHeld]);
    Extend(n, mid, t, s1);
    tt := mid + [s1];
  }
}
