/** The block hashes of Assignment4/thread_func.c: threads claim blocks of 64 bytes under a
    mutex and hash them outside it. */
module BlockHash {
  import opened Options
  import opened Bytes
  import opened Sums
  import opened Words

  const BLOCK_SIZE: nat := 64
  const WORD: nat := 8

  // ----- the hash of one block

  /** The sum of n words from offset at on. */
  function WordSum(buf: seq<byte>, at: nat, n: nat): nat
    requires at + WORD * n <= |buf|
  {
    if n == 0 then 0 else WordSum(buf, at, n - 1) + Load(buf[at + WORD * (n - 1)..at + WORD * n])
  }

  /** How many whole words of the block at ptr lie before the end. */
  function WordsIn(size: nat, ptr: nat): (n: nat)
    requires ptr <= size
    ensures ptr + WORD * n <= size && n <= BLOCK_SIZE / WORD
    ensures n == BLOCK_SIZE / WORD || size < ptr + WORD * (n + 1)
  {
    if size - ptr >= BLOCK_SIZE then BLOCK_SIZE / WORD else (size - ptr) / WORD
  }

  /** The hash of the block at ptr: its whole words, added up in 64 bits. */
  function HashOf(buf: seq<byte>, ptr: nat): nat
    requires ptr <= |buf|
  {
    WordSum(buf, ptr, WordsIn(|buf|, ptr)) % W64
  }

  /** Word i of the block at ptr. */
  function WordAt(buf: seq<byte>, ptr: nat, i: nat): nat
    requires ptr + WORD * (i + 1) <= |buf|
  {
    Load(buf[ptr + WORD * i..ptr + WORD * (i + 1)])
  }

  /** A whole block: its eight words. */
  lemma HashOfWhole(buf: seq<byte>, ptr: nat)
    requires ptr + BLOCK_SIZE <= |buf|
    ensures HashOf(buf, ptr)
         == (WordAt(buf, ptr, 0) + WordAt(buf, ptr, 1) + WordAt(buf, ptr, 2) + WordAt(buf, ptr, 3)
             + WordAt(buf, ptr, 4) + WordAt(buf, ptr, 5) + WordAt(buf, ptr, 6) + WordAt(buf, ptr, 7)) % W64
  {
    assert WordSum(buf, ptr, 0) == 0;
    assert WordSum(buf, ptr, 1) == WordAt(buf, ptr, 0);
    assert WordSum(buf, ptr, 2) == WordSum(buf, ptr, 1) + WordAt(buf, ptr, 1);
    assert WordSum(buf, ptr, 3) == WordSum(buf, ptr, 2) + WordAt(buf, ptr, 2);
    assert WordSum(buf, ptr, 4) == WordSum(buf, ptr, 3) + WordAt(buf, ptr, 3);
    assert WordSum(buf, ptr, 5) == WordSum(buf, ptr, 4) + WordAt(buf, ptr, 4);
    assert WordSum(buf, ptr, 6) == WordSum(buf, ptr, 5) + WordAt(buf, ptr, 5);
    assert WordSum(buf, ptr, 7) == WordSum(buf, ptr, 6) + WordAt(buf, ptr, 6);
    assert WordSum(buf, ptr, 8) == WordSum(buf, ptr, 7) + WordAt(buf, ptr, 7);
  }

  /** The bytes behind the last whole word of the file do not count, and zeros add nothing. */
  lemma {:induction false} HashOfZeros(buf: seq<byte>, ptr: nat)
    requires ptr <= |buf|
    requires forall i :: ptr <= i < ptr + WORD * WordsIn(|buf|, ptr) ==> buf[i] == 0
    ensures HashOf(buf, ptr) == 0
  {
    ZeroSum(buf, ptr, WordsIn(|buf|, ptr));
  }

  lemma {:induction false} ZeroSum(buf: seq<byte>, ptr: nat, n: nat)
    requires ptr + WORD * n <= |buf| && forall i :: ptr <= i < ptr + WORD * n ==> buf[i] == 0
    ensures WordSum(buf, ptr, n) == 0
  {
    if n > 0 {
      ZeroSum(buf, ptr, n - 1);
      LoadZeros(buf[ptr + WORD * (n - 1)..ptr + WORD * n]);
    }
  }

  lemma ModAdd(a: nat, b: nat)
    ensures (a % W64 + b) % W64 == (a + b) % W64
  {
    assert a == W64 * (a / W64) + a % W64;
  }

  /** One word more, added in 64 bits. */
  lemma NextWord(buf: seq<byte>, at: nat, n: nat)
    requires at + WORD * (n + 1) <= |buf|
    ensures WordSum(buf, at, n + 1) % W64
         == (WordSum(buf, at, n) % W64 + Load(buf[at + WORD * n..at + WORD * n + WORD])) % W64
  {
    var word := buf[at + WORD * n..at + WORD * n + WORD];
    assert WordSum(buf, at, n + 1) == WordSum(buf, at, n) + Load(word);
    ModAdd(WordSum(buf, at, n), Load(word));
  }

  method CalculateAndStoreHash(buf: seq<byte>, start: nat) returns (hashval: nat)
    requires start <= |buf|
    ensures hashval == HashOf(buf, start)
  {
    hashval := 0;
    var ptr := start;
    var count := BLOCK_SIZE / WORD;
    ghost var n := 0;
    while count > 0
      invariant 0 <= count && n + count == BLOCK_SIZE / WORD
      invariant ptr == start + WORD * n <= |buf|
      invariant hashval == WordSum(buf, start, n) % W64
    {
      if |buf| - ptr < WORD {
        break;
      }
      NextWord(buf, start, n);
      hashval := (hashval + Load(buf[ptr..ptr + WORD])) % W64;
      ptr := ptr + WORD;
      count := count - 1;
      n := n + 1;
    }
    assert n == WordsIn(|buf|, start);
  }

  /** hash_count of main */
  function HashCount(size: nat): (n: nat)
    ensures BLOCK_SIZE * n < size + BLOCK_SIZE && size <= BLOCK_SIZE * n
  {
    if size % BLOCK_SIZE != 0 then size / BLOCK_SIZE + 1 else size / BLOCK_SIZE
  }

  // ----- the threads

  /** Where a thread is in hashit. */
  datatype Phase =
    | Want | Locked | TookData(cptr: nat) | Moved(cptr: nat) | TookOut(cptr: nat, out: nat)
    | Counted(cptr: nat, out: nat) | Hashing(cptr: nat, out: nat) | Leaving | Exited

  /** dataptr as an offset into the file and optr as an index into hashes; an element of
      hashes that nobody has stored to is None. */
  datatype State = State(dataptr: nat, optr: nat, hashes: seq<Option<nat>>, holder: Option<nat>, phases: seq<Phase>)

  function Init(size: nat, threads: nat): State {
    State(0, 0, seq(HashCount(size), _ => None), None, seq(threads, _ => Want))
  }

  /** The next step of thread t, or None if it has none: the mutex is taken, or it has
      exited, or it would store outside hashes. */
  function Step(buf: seq<byte>, s: State, t: nat): Option<State>
    requires t < |s.phases|
  {
    match s.phases[t]
    case Want => if s.holder.Some? then None else Some(s.(holder := Some(t), phases := s.phases[t := Locked]))
    case Locked =>
      Some(s.(phases := s.phases[t := if s.dataptr >= |buf| then Leaving else TookData(s.dataptr)]))
    case TookData(cptr) => Some(s.(dataptr := s.dataptr + BLOCK_SIZE, phases := s.phases[t := Moved(cptr)]))
    case Moved(cptr) => Some(s.(phases := s.phases[t := TookOut(cptr, s.optr)]))
    case TookOut(cptr, out) => Some(s.(optr := s.optr + 1, phases := s.phases[t := Counted(cptr, out)]))
    case Counted(cptr, out) => Some(s.(holder := None, phases := s.phases[t := Hashing(cptr, out)]))
    case Hashing(cptr, out) =>
      if out >= |s.hashes| || cptr > |buf| then None
      else Some(s.(hashes := s.hashes[out := Some(HashOf(buf, cptr))], phases := s.phases[t := Want]))
    case Leaving => Some(s.(holder := None, phases := s.phases[t := Exited]))
    case Exited => None
  }

  ghost predicate Next(buf: seq<byte>, s: State, s': State) {
    exists t :: 0 <= t < |s.phases| && Step(buf, s, t) == Some(s')
  }

  ghost predicate Run(buf: seq<byte>, threads: nat, ss: seq<State>) {
    && |ss| > 0 && ss[0] == Init(|buf|, threads)
    && forall n :: 0 <= n < |ss| - 1 ==> Next(buf, ss[n], ss[n + 1])
  }

  function Last(ss: seq<State>): State
    requires |ss| > 0
  {
    ss[|ss| - 1]
  }

  // ----- what holds in every state

  predicate HoldsLock(p: Phase) {
    !p.Want? && !p.Hashing? && !p.Exited?
  }

  /** The block that a thread has claimed and not stored yet. */
  function Claim(p: Phase): Option<nat> {
    match p
    case Counted(_, out) => Some(out)
    case Hashing(_, out) => Some(out)
    case _ => None
  }

  /** Data and output pointers stay in step; the mutex covers the moments when they are not. */
  predicate InStep(size: nat, s: State, p: Phase) {
    match p
    case Want => true
    case Exited => s.dataptr >= size
    case Hashing(cptr, out) => cptr == BLOCK_SIZE * out < size && out < s.optr
    case Locked => s.dataptr == BLOCK_SIZE * s.optr
    case Leaving => s.dataptr == BLOCK_SIZE * s.optr >= size
    case TookData(cptr) => s.dataptr == BLOCK_SIZE * s.optr == cptr < size
    case Moved(cptr) => s.dataptr == cptr + BLOCK_SIZE && cptr == BLOCK_SIZE * s.optr < size
    case TookOut(cptr, out) => s.dataptr == cptr + BLOCK_SIZE && cptr == BLOCK_SIZE * s.optr < size && out == s.optr
    case Counted(cptr, out) => s.dataptr == BLOCK_SIZE * s.optr && out + 1 == s.optr && cptr == BLOCK_SIZE * out < size
  }

  ghost predicate Locks(s: State) {
    && (forall t :: 0 <= t < |s.phases| ==> (s.holder == Some(t) <==> HoldsLock(s.phases[t])))
    && (s.holder.Some? ==> s.holder.value < |s.phases|)
    && (s.holder == None ==> s.dataptr == BLOCK_SIZE * s.optr)
  }

  /** No block is claimed by two threads, and none is claimed again after it is stored. */
  ghost predicate ClaimedOnce(s: State) {
    && (forall t, u :: 0 <= t < |s.phases| && 0 <= u < |s.phases| && t != u && Claim(s.phases[t]).Some?
          ==> Claim(s.phases[t]) != Claim(s.phases[u]))
    && (forall t :: 0 <= t < |s.phases| && Claim(s.phases[t]).Some? ==>
          Claim(s.phases[t]).value < s.optr && Claim(s.phases[t]).value < |s.hashes|
              && s.hashes[Claim(s.phases[t]).value] == None)
  }

  /** Every block passed by optr is hashed, or somebody is at it; no other is touched. */
  ghost predicate Covered(buf: seq<byte>, s: State) {
    && |s.hashes| == HashCount(|buf|) && s.optr <= |s.hashes|
    && (forall i :: 0 <= i < |s.hashes| && s.hashes[i].Some? ==>
          i < s.optr && BLOCK_SIZE * i <= |buf| && s.hashes[i].value == HashOf(buf, BLOCK_SIZE * i))
    && (forall i :: 0 <= i < s.optr && s.hashes[i] == None
         ==> exists t :: 0 <= t < |s.phases| && Claim(s.phases[t]) == Some(i))
  }

  ghost predicate Inv(buf: seq<byte>, s: State) {
    && Locks(s) && ClaimedOnce(s) && Covered(buf, s)
    && (forall t :: 0 <= t < |s.phases| ==> InStep(|buf|, s, s.phases[t]))
  }

  /** What a step of thread t changes. */
  ghost predicate Changes(buf: seq<byte>, s: State, t: nat, s': State, p: Phase, p': Phase) {
    && t < |s.phases| && s.phases[t] == p && s'.phases == s.phases[t := p']
    && s.dataptr <= s'.dataptr && s.optr <= s'.optr <= s.optr + 1
    && (!HoldsLock(p) ==> s'.dataptr == s.dataptr && s'.optr == s.optr)
    && s'.holder == (if HoldsLock(p') then Some(t) else if HoldsLock(p) then None else s.holder)
    && (HoldsLock(p') && !HoldsLock(p) ==> s.holder == None)
    && (s'.holder == None && s.holder.Some? ==> s'.dataptr == BLOCK_SIZE * s'.optr)
    && InStep(|buf|, s', p')
    && (if p.TookOut? then
          Claim(p') == Some(s.optr) && s'.optr == s.optr + 1 && s'.hashes == s.hashes && s.optr < HashCount(|buf|)
        else s'.optr == s.optr)
    && (if p.Hashing? then
          Claim(p') == None && p.out < |s.hashes| && p.cptr == BLOCK_SIZE * p.out <= |buf|
          && s'.hashes == s.hashes[p.out := Some(HashOf(buf, p.cptr))]
        else s'.hashes == s.hashes)
    && (!p.TookOut? && !p.Hashing? ==> Claim(p') == Claim(p))
  }

  lemma StepChanges(buf: seq<byte>, s: State, t: nat, s': State)
    requires t < |s.phases| && Step(buf, s, t) == Some(s') && InStep(|buf|, s, s.phases[t])
    requires s.holder == None ==> s.dataptr == BLOCK_SIZE * s.optr
    requires HoldsLock(s.phases[t]) ==> s.holder == Some(t)
    ensures Changes(buf, s, t, s', s.phases[t], s'.phases[t])
  {
  }

  lemma StepLocks(buf: seq<byte>, s: State, t: nat, s': State, p: Phase, p': Phase)
    requires Locks(s) && Changes(buf, s, t, s', p, p')
    ensures Locks(s')
  {
    forall u | 0 <= u < |s'.phases| ensures s'.holder == Some(u) <==> HoldsLock(s'.phases[u]) {
      assert s.holder == Some(u) <==> HoldsLock(s.phases[u]);
    }
  }

  lemma StepOthers(buf: seq<byte>, s: State, t: nat, s': State, p: Phase, p': Phase, u: nat)
    requires Locks(s) && Changes(buf, s, t, s', p, p') && u < |s.phases| && InStep(|buf|, s, s.phases[u])
    ensures InStep(|buf|, s', s'.phases[u])
  {
    if u != t && HoldsLock(p) {
      assert s.holder == Some(t) && !HoldsLock(s.phases[u]);
    }
  }

  lemma StepClaims(buf: seq<byte>, s: State, t: nat, s': State, p: Phase, p': Phase)
    requires ClaimedOnce(s) && Covered(buf, s) && Changes(buf, s, t, s', p, p')
    ensures ClaimedOnce(s')
  {
    forall u | 0 <= u < |s'.phases| && Claim(s'.phases[u]).Some?
      ensures Claim(s'.phases[u]).value < s'.optr && Claim(s'.phases[u]).value < |s'.hashes|
      ensures s'.hashes[Claim(s'.phases[u]).value] == None
    {
      assert u != t ==> s'.phases[u] == s.phases[u];
      if p.TookOut? && u == t {
        assert s.optr < |s.hashes| && s.hashes[s.optr] == None;
      }
      if p.Hashing? && u != t {
        assert Claim(s.phases[t]) != Claim(s.phases[u]);
      }
    }
  }

  lemma StepCovers(buf: seq<byte>, s: State, t: nat, s': State, p: Phase, p': Phase)
    requires ClaimedOnce(s) && Covered(buf, s) && Changes(buf, s, t, s', p, p')
    ensures Covered(buf, s')
  {
    forall i | 0 <= i < s'.optr && s'.hashes[i] == None
      ensures exists u :: 0 <= u < |s'.phases| && Claim(s'.phases[u]) == Some(i)
    {
      if p.TookOut? && i == s.optr {
        assert Claim(s'.phases[t]) == Some(i);
      } else {
        var u :| 0 <= u < |s.phases| && Claim(s.phases[u]) == Some(i);
        assert Claim(s'.phases[u]) == Some(i);
      }
    }
  }

  lemma StepInv(buf: seq<byte>, s: State, t: nat, s': State)
    requires Inv(buf, s) && t < |s.phases| && Step(buf, s, t) == Some(s')
    ensures Inv(buf, s') && |s'.phases| == |s.phases|
  {
    StepChanges(buf, s, t, s');
    var p, p' := s.phases[t], s'.phases[t];
    StepLocks(buf, s, t, s', p, p');
    StepClaims(buf, s, t, s', p, p');
    StepCovers(buf, s, t, s', p, p');
    forall u | 0 <= u < |s'.phases| ensures InStep(|buf|, s', s'.phases[u]) {
      StepOthers(buf, s, t, s', p, p', u);
    }
  }

  lemma {:induction false} RunInv(buf: seq<byte>, threads: nat, ss: seq<State>)
    requires Run(buf, threads, ss)
    ensures Inv(buf, Last(ss)) && |Last(ss).phases| == threads
  {
    if |ss| > 1 {
      var front := ss[..|ss| - 1];
      assert Run(buf, threads, front);
      RunInv(buf, threads, front);
      LastInv(buf, threads, ss, |ss| - 2);
    }
  }

  lemma LastInv(buf: seq<byte>, threads: nat, ss: seq<State>, n: nat)
    requires Run(buf, threads, ss) && n < |ss| - 1 && Inv(buf, ss[n])
    ensures Inv(buf, ss[n + 1]) && |ss[n + 1].phases| == |ss[n].phases|
  {
    assert Next(buf, ss[n], ss[n + 1]);
    var t :| 0 <= t < |ss[n].phases| && Step(buf, ss[n], t) == Some(ss[n + 1]);
    StepInv(buf, ss[n], t, ss[n + 1]);
  }

  // ----- what a run computes

  /** When all threads have exited, each block has been hashed: whatever the number of
      threads and the schedule, the result is the same. */
  lemma AllHashed(buf: seq<byte>, threads: nat, ss: seq<State>)
    requires Run(buf, threads, ss) && threads > 0
    requires forall p :: p in Last(ss).phases ==> p.Exited?
    ensures Last(ss).optr == |Last(ss).hashes| == HashCount(|buf|)
    ensures forall i :: 0 <= i < HashCount(|buf|) ==>
              BLOCK_SIZE * i <= |buf| && Last(ss).hashes[i] == Some(HashOf(buf, BLOCK_SIZE * i))
  {
    RunInv(buf, threads, ss);
    NobodyLeft(buf, Last(ss));
  }

  lemma NobodyLeft(buf: seq<byte>, s: State)
    requires Inv(buf, s) && |s.phases| > 0 && forall p :: p in s.phases ==> p.Exited?
    ensures s.optr == |s.hashes| == HashCount(|buf|)
    ensures forall i :: 0 <= i < |s.hashes| ==>
              BLOCK_SIZE * i <= |buf| && s.hashes[i] == Some(HashOf(buf, BLOCK_SIZE * i))
  {
    assert forall t :: 0 <= t < |s.phases| ==> s.phases[t].Exited?;
    assert InStep(|buf|, s, s.phases[0]);
    assert s.holder == None;
    Reached(|buf|, s.optr);
    forall i | 0 <= i < |s.hashes| ensures s.hashes[i].Some? {
    }
  }

  lemma Reached(size: nat, n: nat)
    requires BLOCK_SIZE * n >= size && n <= HashCount(size)
    ensures n == HashCount(size)
  {
  }

  /** In every state of every run, hashes has an element for each block, optr does not pass
      its end, and dataptr does not pass the end of the last block. */
  lemma NeverPast(buf: seq<byte>, threads: nat, ss: seq<State>)
    requires Run(buf, threads, ss)
    ensures Last(ss).optr <= |Last(ss).hashes| == HashCount(|buf|)
    ensures Last(ss).dataptr <= BLOCK_SIZE * HashCount(|buf|)
  {
    RunInv(buf, threads, ss);
    DataWithin(|buf|, Last(ss));
  }

  lemma DataWithin(size: nat, s: State)
    requires Locks(s) && s.optr <= HashCount(size)
    requires forall t :: 0 <= t < |s.phases| ==> InStep(size, s, s.phases[t])
    ensures s.dataptr <= BLOCK_SIZE * HashCount(size)
  {
    if s.holder.Some? {
      var p := s.phases[s.holder.value];
      assert HoldsLock(p);
    }
  }

  /** A thread that stores a hash stores inside the array, into an element of its own that
      nobody has stored to, and no two threads are at the same block. */
  lemma StoresOnce(buf: seq<byte>, threads: nat, ss: seq<State>, t: nat)
    requires Run(buf, threads, ss) && t < |Last(ss).phases| && Last(ss).phases[t].Hashing?
    ensures var s := Last(ss); var p := s.phases[t];
            && p.cptr == BLOCK_SIZE * p.out < |buf| && p.out < s.optr <= |s.hashes| && s.hashes[p.out] == None
            && forall u :: 0 <= u < |s.phases| && u != t && s.phases[u].Hashing? ==> s.phases[u].out != p.out
  {
    RunInv(buf, threads, ss);
    var s := Last(ss);
    assert InStep(|buf|, s, s.phases[t]);
    forall u | 0 <= u < |s.phases| && u != t && s.phases[u].Hashing? ensures s.phases[u].out != s.phases[t].out {
      assert Claim(s.phases[t]) != Claim(s.phases[u]);
    }
  }

  /** Some thread can always go on, until all have exited. */
  lemma NeverStuck(buf: seq<byte>, threads: nat, ss: seq<State>, t: nat) returns (u: nat)
    requires Run(buf, threads, ss) && t < |Last(ss).phases| && !Last(ss).phases[t].Exited?
    ensures u < |Last(ss).phases| && Step(buf, Last(ss), u).Some?
  {
    RunInv(buf, threads, ss);
    var s := Last(ss);
    u := if s.phases[t].Want? && s.holder.Some? then s.holder.value else t;
    assert InStep(|buf|, s, s.phases[u]);
    if s.phases[u].Hashing? {
      StoresOnce(buf, threads, ss, u);
    }
  }

  // ----- every schedule comes to an end

  /** How many steps a thread has left until it wants the next block or has exited. */
  function Ahead(p: Phase): nat {
    match p
    case Want => 11
    case Locked => 10
    case TookData(_) => 9
    case Moved(_) => 8
    case TookOut(_, _) => 7
    case Counted(_, _) => 13
    case Hashing(_, _) => 12
    case Leaving => 1
    case Exited => 0
  }

  function Aheads(phases: seq<Phase>): seq<int> {
    seq(|phases|, t requires 0 <= t < |phases| => Ahead(phases[t]))
  }

  /** Seven for each block that is not claimed, and what the threads have left. */
  function Left(size: nat, s: State): int {
    7 * (HashCount(size) - s.optr) + Sum(Aheads(s.phases))
  }

  lemma LeftBounds(buf: seq<byte>, s: State)
    requires Inv(buf, s)
    ensures Left(|buf|, s) >= 0
  {
    SumBounds(Aheads(s.phases), 13);
  }

  lemma PhaseDown(buf: seq<byte>, s: State, t: nat, s': State)
    requires t < |s.phases| && Step(buf, s, t) == Some(s')
    ensures s'.phases == s.phases[t := s'.phases[t]]
    ensures Ahead(s'.phases[t]) - 7 * s'.optr < Ahead(s.phases[t]) - 7 * s.optr
  {
  }

  lemma StepDown(buf: seq<byte>, s: State, t: nat, s': State)
    requires t < |s.phases| && Step(buf, s, t) == Some(s')
    ensures Left(|buf|, s') < Left(|buf|, s)
  {
    PhaseDown(buf, s, t, s');
    SumSet(Aheads(s.phases), t, Ahead(s'.phases[t]));
    assert Aheads(s'.phases) == Aheads(s.phases)[t := Ahead(s'.phases[t])];
  }

  /** No run is longer than seven steps a block and eleven a thread. */
  lemma {:induction false} RunLength(buf: seq<byte>, threads: nat, ss: seq<State>)
    requires Run(buf, threads, ss)
    ensures |ss| - 1 + Left(|buf|, Last(ss)) <= 7 * HashCount(|buf|) + 11 * threads
    ensures |ss| - 1 <= 7 * HashCount(|buf|) + 11 * threads
  {
    RunInv(buf, threads, ss);
    LeftBounds(buf, Last(ss));
    if |ss| == 1 {
      SumRaise(seq(threads, _ => 0), Aheads(ss[0].phases), 11);
      SumBounds(seq(threads, _ => 0), 0);
    } else {
      var front := ss[..|ss| - 1];
      RunLength(buf, threads, front);
      RunInv(buf, threads, front);
      LastDown(buf, ss, |ss| - 2);
    }
  }

  lemma LastDown(buf: seq<byte>, ss: seq<State>, n: nat)
    requires n < |ss| - 1 && Inv(buf, ss[n]) && Next(buf, ss[n], ss[n + 1])
    ensures Left(|buf|, ss[n + 1]) < Left(|buf|, ss[n])
  {
    var t :| 0 <= t < |ss[n].phases| && Step(buf, ss[n], t) == Some(ss[n + 1]);
    StepDown(buf, ss[n], t, ss[n + 1]);
  }

  /** A run that cannot be continued has hashed every block: with RunLength, every schedule
      gets there. */
  lemma MaximalRunsHash(buf: seq<byte>, threads: nat, ss: seq<State>)
    requires Run(buf, threads, ss) && threads > 0
    requires forall t :: 0 <= t < |Last(ss).phases| ==> Step(buf, Last(ss), t) == None
    ensures |Last(ss).hashes| == HashCount(|buf|)
    ensures forall i :: 0 <= i < HashCount(|buf|) ==>
              BLOCK_SIZE * i <= |buf| && Last(ss).hashes[i] == Some(HashOf(buf, BLOCK_SIZE * i))
  {
    forall t | 0 <= t < |Last(ss).phases| ensures Last(ss).phases[t].Exited? {
      if !Last(ss).phases[t].Exited? {
        var u := NeverStuck(buf, threads, ss, t);
      }
    }
    AllHashed(buf, threads, ss);
  }
}
