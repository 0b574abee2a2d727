/** Descriptors, file objects and pipes of Assignment2/file.c and Assignment2/pipe.c: who
    owns a reference, and when an object is freed. */
module Descriptors {
  import opened Options

  const EINVAL: int := -1
  const EOTHERS: int := -2

  const O_READ: int := 1
  const O_WRITE: int := 2

  datatype Type = Stdin | Stdout | Stderr | Regular | Piped

  /** pipe_info without the data. */
  class PipeInfo {
    var isROpen: bool
    var isWOpen: bool

    constructor ()
      ensures isROpen && isWOpen
    {
      isROpen, isWOpen := true, true;
    }
  }

  /** The objects at the ends of a pipe, as long as they live. */
  datatype Ends = Ends(reader: File?, writer: File?)

  /** struct file. */
  class File {
    var ftype: Type
    var mode: int
    var refCount: int
    var pipe: PipeInfo?

    /** As its opener leaves it. */
    constructor (ftype: Type, mode: int, pipe: PipeInfo?)
      ensures this.ftype == ftype && this.mode == mode && refCount == 1 && this.pipe == pipe
    {
      this.ftype, this.mode, refCount, this.pipe := ftype, mode, 1, pipe;
    }
  }

  /** What a call that looks for descriptors comes to: one, two, an error, or a read past
      the end of the table. */
  datatype Outcome = Fd(fd: nat) | Both(fd0: nat, fd1: nat) | Error(code: int) | Overrun

  /** The calls of a process. */
  datatype Call =
    | SpawnCall(pid: nat) | OpenCall(pid: nat, mode: int) | StreamCall(pid: nat, stream: nat, ftype: Type)
    | PipeCall(pid: nat)
    | DupCall(pid: nat, oldfd: int) | Dup2Call(pid: nat, oldfd: int, newfd: int) | CloseCall(pid: nat, fd: nat)
    | ForkCall(pid: nat, child: nat) | ExitCall(pid: nat)

  /** A place in some process's table. */
  datatype Slot = Slot(pid: nat, fd: nat)

  /** The slots that name an object. */
  ghost function Refs(slots: map<Slot, File>, f: File): set<Slot> {
    set k | k in slots && slots[k] == f
  }

  lemma RefsPut(slots: map<Slot, File>, k: Slot, f: File, g: File)
    requires k !in slots
    ensures |Refs(slots[k := f], g)| == |Refs(slots, g)| + if f == g then 1 else 0
  {
    if f == g {
      assert Refs(slots[k := f], g) == Refs(slots, g) + {k};
    } else {
      assert Refs(slots[k := f], g) == Refs(slots, g);
    }
  }

  lemma RefsDrop(slots: map<Slot, File>, k: Slot, g: File)
    requires k in slots
    ensures |Refs(slots - {k}, g)| == |Refs(slots, g)| - if slots[k] == g then 1 else 0
  {
    if slots[k] == g {
      assert Refs(slots - {k}, g) == Refs(slots, g) - {k};
    } else {
      assert Refs(slots - {k}, g) == Refs(slots, g);
    }
  }

  /** An object's count is the number of slots that name it and of references in hand, of
      which there are some. */
  ghost predicate Right(slots: map<Slot, File>, held: multiset<File>, f: File)
    reads f`refCount
  {
    f.refCount == |Refs(slots, f)| + held[f] && f.refCount > 0
  }

  ghost function Miscounted(slots: map<Slot, File>, objs: set<File>, held: multiset<File>): set<File>
    reads objs`refCount
  {
    set f | f in objs && !Right(slots, held, f)
  }

  /** Each reference is counted: an object lives as long as somebody refers to it. */
  ghost predicate Counted(fileObjects: int, slots: map<Slot, File>, objs: set<File>, held: multiset<File>)
    reads objs`refCount
  {
    && fileObjects == |objs|
    && (forall k :: k in slots ==> slots[k] in objs)
    && (forall f :: f in held ==> f in objs)
    && Miscounted(slots, objs, held) == {}
  }

  lemma CountedNew(fileObjects: int, slots: map<Slot, File>, objs: set<File>, held: multiset<File>, f: File)
    requires Counted(fileObjects, slots, objs, held) && f !in objs && f.refCount == 1
    ensures Counted(fileObjects + 1, slots, objs + {f}, held + multiset{f})
  {
    assert f !in held;
    assert Refs(slots, f) == {};
    forall g | g in objs + {f} ensures Right(slots, held + multiset{f}, g) {
      assert g !in Miscounted(slots, objs, held);
    }
  }

  /** One reference to f is gone, and f with it if it was the last. */
  lemma CountedLess(fileObjects: int, slots: map<Slot, File>, objs: set<File>, held: multiset<File>, f: File)
    requires fileObjects == |objs| && f in objs && f.refCount == |Refs(slots, f)| + held[f]
    requires (forall k :: k in slots ==> slots[k] in objs) && (forall g :: g in held ==> g in objs)
    requires forall g :: g in objs && g != f ==> Right(slots, held, g)
    ensures if f.refCount == 0 then Counted(fileObjects - 1, slots, objs - {f}, held)
        else Counted(fileObjects, slots, objs, held)
  {
    assert forall k :: k in slots && slots[k] == f ==> k in Refs(slots, f);
  }

  /** The pipes when object f is gone: its end is gone, and the pipe with the second end. */
  ghost function Without(pipes: map<PipeInfo, Ends>, f: File): (left: map<PipeInfo, Ends>)
    reads f`ftype, f`pipe
    ensures left.Keys <= pipes.Keys
  {
    if f.ftype != Piped || f.pipe !in pipes then pipes
    else
      var e := pipes[f.pipe];
      var left := Ends(if e.reader == f then null else e.reader, if e.writer == f then null else e.writer);
      if left == Ends(null, null) then pipes - {f.pipe} else pipes[f.pipe := left]
  }

  /** f is the end with the given mode of pipe p. */
  ghost predicate IsEnd(f: File, p: PipeInfo, mode: int)
    reads f`ftype, f`mode, f`pipe
  {
    f.ftype == Piped && f.pipe == p && f.mode == mode
  }

  /** Some object alive is an end of pipe p. */
  ghost predicate HasEnd(objs: set<File>, p: PipeInfo)
    reads objs`ftype, objs`pipe
  {
    exists f :: f in objs && f.ftype == Piped && f.pipe == p
  }

  /** The ends of pipe p that live are e, and its flags say so. */
  ghost predicate Alive(objs: set<File>, p: PipeInfo, e: Ends)
    reads objs`ftype, objs`mode, objs`pipe, p`isROpen, p`isWOpen
  {
    && (p.isROpen || p.isWOpen)
    && (p.isROpen <==> e.reader != null) && (p.isWOpen <==> e.writer != null)
    && (p.isROpen ==> e.reader in objs && IsEnd(e.reader, p, O_READ))
    && (p.isWOpen ==> e.writer in objs && IsEnd(e.writer, p, O_WRITE))
  }

  /** The ends that no pipe has. */
  ghost function Strays(objs: set<File>, pipes: map<PipeInfo, Ends>): set<File>
    reads objs`ftype, objs`pipe
  {
    set f | f in objs && f.ftype == Piped
        && !(f.pipe in pipes && (f == pipes[f.pipe].reader || f == pipes[f.pipe].writer))
  }

  /** The pipes whose flags are wrong. */
  ghost function Faulty(objs: set<File>, pipes: map<PipeInfo, Ends>): set<PipeInfo>
    reads objs`ftype, objs`mode, objs`pipe, pipes.Keys`isROpen, pipes.Keys`isWOpen
  {
    set p | p in pipes && !Alive(objs, p, pipes[p])
  }

  /** A pipe lives as long as one of its ends, and its flags say which. */
  ghost predicate Piping(objs: set<File>, pipes: map<PipeInfo, Ends>)
    reads objs`ftype, objs`mode, objs`pipe, pipes.Keys`isROpen, pipes.Keys`isWOpen
  {
    Strays(objs, pipes) == {} && Faulty(objs, pipes) == {}
  }

  lemma PlainGone(objs: set<File>, pipes: map<PipeInfo, Ends>, f: File)
    requires Piping(objs, pipes) && f in objs && f.ftype != Piped
    ensures Piping(objs - {f}, pipes)
  {
  }

  lemma PlainAdded(objs: set<File>, pipes: map<PipeInfo, Ends>, f: File)
    requires Piping(objs, pipes) && f !in objs && f.ftype != Piped
    ensures Piping(objs + {f}, pipes)
  {
  }

  lemma PipeAdded(objs: set<File>, pipes: map<PipeInfo, Ends>, r: File, w: File, p: PipeInfo)
    requires Piping(objs, pipes) && r !in objs && w !in objs && p !in pipes && p.isROpen && p.isWOpen
    requires IsEnd(r, p, O_READ) && IsEnd(w, p, O_WRITE)
    ensures Piping(objs + {r} + {w}, pipes[p := Ends(r, w)])
  {
  }

  /** slots is what the descriptor tables of the live processes say. */
  ghost predicate Tied(tables: map<nat, seq<File?>>, slots: map<Slot, File>, max: nat) {
    && (forall c :: c in tables ==> |tables[c]| == max)
    && (forall c, i :: c in tables && 0 <= i < |tables[c]| ==>
          (tables[c][i] == null <==> Slot(c, i) !in slots)
              && (tables[c][i] != null ==> slots[Slot(c, i)] == tables[c][i]))
    && (forall k :: k in slots ==> k.pid in tables && k.fd < max)
  }

  /** Between calls nobody holds a reference: those that are held are lost, and lead to
      objects that no slot names. */
  ghost predicate Lost(slots: map<Slot, File>, held: multiset<File>) {
    forall k :: k in slots ==> slots[k] !in held
  }

  lemma TiedPut(tables: map<nat, seq<File?>>, slots: map<Slot, File>, max: nat, c: nat, i: nat, f: File)
    requires Tied(tables, slots, max) && c in tables && i < max
    ensures Tied(tables[c := tables[c][i := f]], slots[Slot(c, i) := f], max)
  {
  }

  lemma TiedDrop(tables: map<nat, seq<File?>>, slots: map<Slot, File>, max: nat, c: nat, i: nat)
    requires Tied(tables, slots, max) && c in tables && i < max
    ensures Tied(tables[c := tables[c][i := null]], slots - {Slot(c, i)}, max)
  {
  }

  /** The slots with the first n of a copied table. */
  ghost function Copied(slots: map<Slot, File>, pid: nat, files: seq<File?>, n: nat): map<Slot, File>
    requires n <= |files|
  {
    if n == 0 then slots
    else
      var before := Copied(slots, pid, files, n - 1);
      if files[n - 1] == null then before else before[Slot(pid, n - 1) := files[n - 1]]
  }

  lemma {:induction false} CopiedAt(slots: map<Slot, File>, pid: nat, files: seq<File?>, n: nat)
    requires n <= |files| && forall i: nat :: Slot(pid, i) !in slots
    ensures forall k :: k in Copied(slots, pid, files, n)
              <==> k in slots || (k.pid == pid && k.fd < n && files[k.fd] != null)
    ensures forall k :: k in slots ==> Copied(slots, pid, files, n)[k] == slots[k]
    ensures forall i: nat :: i < n && files[i] != null ==> Copied(slots, pid, files, n)[Slot(pid, i)] == files[i]
  {
    if n > 0 {
      CopiedAt(slots, pid, files, n - 1);
    }
  }

  /** The child's slots name what the parent's name; all other slots stay. */
  ghost predicate Forked(was: map<Slot, File>, now: map<Slot, File>, parent: nat, child: nat) {
    && (forall k :: k in now <==> if k.pid == child then Slot(parent, k.fd) in was else k in was)
    && (forall k :: k in now ==> now[k] == was[if k.pid == child then Slot(parent, k.fd) else k])
  }

  lemma TiedFork(tables: map<nat, seq<File?>>, slots: map<Slot, File>, max: nat, parent: nat, child: nat)
    requires Tied(tables, slots, max) && parent in tables && child !in tables
    ensures Tied(tables[child := tables[parent]], Copied(slots, child, tables[parent], max), max)
    ensures Forked(slots, Copied(slots, child, tables[parent], max), parent, child)
  {
    CopiedAt(slots, child, tables[parent], max);
  }

  lemma CopiedNext(tables: map<nat, seq<File?>>, slots: map<Slot, File>, max: nat, parent: nat, child: nat, n: nat)
    requires Tied(tables, slots, max) && parent in tables && child !in tables && n < max
    ensures Slot(child, n) !in Copied(slots, child, tables[parent], n)
    ensures tables[parent][n] != null ==> Slot(parent, n) in Copied(slots, child, tables[parent], n)
    ensures tables[parent][n] != null ==> Copied(slots, child, tables[parent], n)[Slot(parent, n)] == tables[parent][n]
  {
    CopiedAt(slots, child, tables[parent], n);
  }

  /** The slots without the first n of a process. */
  ghost function Trimmed(slots: map<Slot, File>, pid: nat, n: nat): map<Slot, File> {
    map k | k in slots && !(k.pid == pid && k.fd < n) :: slots[k]
  }

  lemma TrimmedNext(slots: map<Slot, File>, pid: nat, n: nat)
    ensures Trimmed(slots, pid, n + 1) == Trimmed(slots, pid, n) - {Slot(pid, n)}
    ensures Slot(pid, n) !in slots ==> Trimmed(slots, pid, n + 1) == Trimmed(slots, pid, n)
  {
  }

  lemma TiedExit(tables: map<nat, seq<File?>>, slots: map<Slot, File>, max: nat, pid: nat)
    requires Tied(tables, slots, max) && pid in tables
    ensures Tied(tables - {pid}, Trimmed(slots, pid, max), max)
  {
  }

  lemma PutAgain(slots: map<Slot, File>, k: Slot, f: File)
    ensures (slots - {k})[k := f] == slots[k := f]
  {
  }

  class Kernel {
    /** MAX_OPEN_FILES */
    const max: nat
    /** stats->file_objects */
    var fileObjects: int

    /** The descriptor table of each live process: exec_context's files. */
    var tables: map<nat, seq<File?>>

    /** The slots in use, the objects and pipes not yet freed. */
    ghost var slots: map<Slot, File>
    ghost var objs: set<File>
    ghost var pipes: map<PipeInfo, Ends>
    /** References that no slot holds: those in the hands of a call that is under way, and
        those that a failed open has lost. */
    ghost var held: multiset<File>

    // ----- what holds in every state

    ghost predicate Inv()
      reads `fileObjects, `slots, `objs, `held, `pipes
      reads objs`refCount, objs`ftype, objs`mode, objs`pipe, pipes.Keys`isROpen, pipes.Keys`isWOpen
    {
      Counted(fileObjects, slots, objs, held) && Piping(objs, pipes)
    }

    ghost predicate Valid()
      reads `fileObjects, `slots, `objs, `held, `pipes, `tables
      reads objs`refCount, objs`ftype, objs`mode, objs`pipe, pipes.Keys`isROpen, pipes.Keys`isWOpen
    {
      max > 3 && Inv() && Tied(tables, slots, max) && Lost(slots, held)
    }

    constructor (max: nat)
      requires max > 3
      ensures Valid() && this.max == max && tables == map[] && held == multiset{}
    {
      this.max := max;
      fileObjects := 0;
      tables, slots, objs, pipes, held := map[], map[], {}, map[], multiset{};
    }

    // ----- references

    /** ref_count++ */
    method Hold(f: File)
      requires Inv() && f in objs
      modifies `held, f`refCount
      ensures Inv() && held == old(held) + multiset{f} && f.refCount == old(f.refCount) + 1
    {
      f.refCount := f.refCount + 1;
      held := held + multiset{f};
    }

    /** A reference in hand goes into an empty slot. */
    ghost method Install(k: Slot, f: File)
      requires Inv() && f in held && k !in slots
      modifies `held, `slots
      ensures Inv() && held == old(held) - multiset{f} && slots == old(slots)[k := f]
    {
      forall g | g in objs ensures |Refs(slots[k := f], g)| == |Refs(slots, g)| + if f == g then 1 else 0 {
        RefsPut(slots, k, f, g);
      }
      held := held - multiset{f};
      slots := slots[k := f];
    }

    /** The reference of a slot that is about to be overwritten or given up. */
    ghost method Release(k: Slot)
      requires Inv() && k in slots
      modifies `held, `slots
      ensures Inv() && held == old(held) + multiset{old(slots[k])} && slots == old(slots) - {k}
    {
      var f := slots[k];
      forall g | g in objs ensures |Refs(slots - {k}, g)| == |Refs(slots, g)| - if f == g then 1 else 0 {
        RefsDrop(slots, k, g);
      }
      held := held + multiset{f};
      slots := slots - {k};
    }

    // ----- allocation

    /** alloc_file, and the caller's ref_count = 1. */
    method AllocFile(ftype: Type, mode: int, pipe: PipeInfo?) returns (f: File)
      requires Counted(fileObjects, slots, objs, held)
      modifies `fileObjects, `objs, `held
      ensures Counted(fileObjects, slots, objs, held) && fresh(f) && f.ftype == ftype && f.mode == mode
          && f.pipe == pipe
      ensures objs == old(objs) + {f} && held == old(held) + multiset{f}
    {
      f := new File(ftype, mode, pipe);
      Enrol(f);
    }

    /** A new object, with the reference of its opener, is counted. */
    method Enrol(f: File)
      requires Counted(fileObjects, slots, objs, held) && f !in objs && f.refCount == 1
      modifies `fileObjects, `objs, `held
      ensures Counted(fileObjects, slots, objs, held)
      ensures objs == old(objs) + {f} && held == old(held) + multiset{f}
    {
      CountedNew(fileObjects, slots, objs, held, f);
      fileObjects := fileObjects + 1;
      objs := objs + {f};
      held := held + multiset{f};
    }

    /** free_file_object, of an object to which nobody refers any more. */
    method FreeFileObject(f: File?)
      requires f != null ==> f in objs && Counted(fileObjects - 1, slots, objs - {f}, held) && Piping(objs - {f}, pipes)
      modifies `fileObjects, `objs
      ensures f != null ==> Inv()
      ensures fileObjects == old(fileObjects) - (if f == null then 0 else 1) && objs == old(objs) - {f}
    {
      if f != null {
        fileObjects := fileObjects - 1;
        objs := objs - {f};
      }
    }

    /** free_pipe_info: a pipe that is not freed yet. */
    method FreePipeInfo(p: PipeInfo?)
      requires p != null ==> p in pipes
      modifies `pipes
      ensures pipes == if p == null then old(pipes) else old(pipes) - {p}
    {
      if p != null {
        pipes := pipes - {p};
      }
    }

    // ----- generic_close

    /** filep->ref_count-- */
    method Unref(f: File)
      requires Counted(fileObjects, slots, objs, held) && f in held
      modifies `held, f`refCount
      ensures held == old(held) - multiset{f} && f.refCount == old(f.refCount) - 1
      ensures if f.refCount == 0 then Counted(fileObjects - 1, slots, objs - {f}, held)
              else Counted(fileObjects, slots, objs, held)
    {
      assert Right(slots, held, f) by {
        assert f !in Miscounted(slots, objs, held);
      }
      f.refCount := f.refCount - 1;
      held := held - multiset{f};
      forall g | g in objs && g != f ensures Right(slots, held, g) {
        assert g !in old(Miscounted(slots, objs, held));
      }
      CountedLess(fileObjects, slots, objs, held, f);
    }

    /** The end of a pipe goes; the pipe goes with the second one. */
    method CloseEnd(f: File)
      requires Piping(objs, pipes) && f in objs && f.ftype == Piped
      modifies `pipes, pipes.Keys`isROpen, pipes.Keys`isWOpen
      ensures Piping(objs - {f}, pipes)
      ensures pipes == Without(old(pipes), f)
    {
      assert f !in Strays(objs, pipes);
      assert f.pipe !in Faulty(objs, pipes);
      if f.mode == O_READ && f.pipe.isROpen {
        f.pipe.isROpen := false;
        pipes := pipes[f.pipe := pipes[f.pipe].(reader := null)];
      }
      if f.mode == O_WRITE && f.pipe.isWOpen {
        f.pipe.isWOpen := false;
        pipes := pipes[f.pipe := pipes[f.pipe].(writer := null)];
      }
      if !f.pipe.isWOpen && !f.pipe.isROpen {
        FreePipeInfo(f.pipe);
      }
    }

    /** What generic_close does to the pipe, if there is one. */
    method CloseData(f: File)
      requires Piping(objs, pipes) && f in objs && Counted(fileObjects - 1, slots, objs - {f}, held)
      modifies `pipes, pipes.Keys`isROpen, pipes.Keys`isWOpen
      ensures Counted(fileObjects - 1, slots, objs - {f}, held) && Piping(objs - {f}, pipes)
      ensures pipes == Without(old(pipes), f)
    {
      if f.ftype == Piped {
        CloseEnd(f);
      } else {
        PlainGone(objs, pipes, f);
      }
    }

    /** The last reference is gone: the pipe's end is closed and the object freed. */
    method Retire(f: File)
      requires Piping(objs, pipes) && f in objs && Counted(fileObjects - 1, slots, objs - {f}, held)
      modifies `fileObjects, `objs, `pipes, pipes.Keys`isROpen, pipes.Keys`isWOpen
      ensures Inv() && objs == old(objs) - {f}
      ensures pipes == Without(old(pipes), f)
    {
      CloseData(f);
      FreeFileObject(f);
    }

    /** generic_close of an object. */
    method Drop(f: File)
      requires Inv() && f in held
      modifies `fileObjects, `objs, `pipes, `held, f`refCount, pipes.Keys`isROpen, pipes.Keys`isWOpen
      ensures Inv() && held == old(held) - multiset{f}
      ensures objs == if old(f.refCount) == 1 then old(objs) - {f} else old(objs)
      ensures pipes == if old(f.refCount) == 1 then Without(old(pipes), f) else old(pipes)
    {
      Unref(f);
      assert Piping(objs, pipes);
      if f.refCount == 0 {
        Retire(f);
      }
    }

    /** One reference is given up.  The object is freed with the last one, and the pipe with
        the second of its ends. */
    method GenericClose(f: File?) returns (r: int)
      requires Inv() && (f != null ==> f in held)
      modifies `fileObjects, `objs, `pipes, `held, objs`refCount, pipes.Keys`isROpen, pipes.Keys`isWOpen
      ensures Inv()
      ensures f == null ==> r == EINVAL && held == old(held) && objs == old(objs) && pipes == old(pipes)
      ensures f != null ==> r == 0 && held == old(held) - multiset{f}
      ensures objs <= old(objs) && pipes.Keys <= old(pipes.Keys)
      ensures f != null ==> objs == if old(f.refCount) == 1 then old(objs) - {f} else old(objs)
      ensures f != null ==> pipes == if old(f.refCount) == 1 then Without(old(pipes), f) else old(pipes)
    {
      r := EINVAL;
      if f != null {
        Drop(f);
        r := 0;
      }
    }

    // ----- slots

    /** fd is the lowest free descriptor from start on, or max if there is none. */
    ghost predicate Lowest(slots: map<Slot, File>, ctx: nat, start: nat, fd: int) {
      && start <= fd <= max && (fd < max ==> Slot(ctx, fd) !in slots)
      && forall i :: start <= i < fd ==> Slot(ctx, i) in slots
    }

    /** The scan for a free slot. */
    method FindFree(ctx: nat, start: nat) returns (fd: nat)
      requires Tied(tables, slots, max) && ctx in tables && start < max
      ensures Lowest(slots, ctx, start, fd)
    {
      fd := start;
      while tables[ctx][fd] != null
        invariant start <= fd < max
        invariant forall i :: start <= i < fd ==> Slot(ctx, i) in slots
        decreases max - fd
      {
        fd := fd + 1;
        if fd >= max {
          assert Slot(ctx, fd - 1) in slots;
          return;
        }
      }
    }

    /** current->files[fd] = f */
    method SetFile(ctx: nat, fd: nat, f: File?, ghost was: map<Slot, File>)
      requires Tied(tables, was, max) && ctx in tables && fd < max
      modifies `tables
      ensures tables.Keys == old(tables.Keys)
      ensures Tied(tables, if f == null then was - {Slot(ctx, fd)} else was[Slot(ctx, fd) := f], max)
    {
      if f == null {
        TiedDrop(tables, was, max, ctx, fd);
      } else {
        TiedPut(tables, was, max, ctx, fd, f);
      }
      tables := tables[ctx := tables[ctx][fd := f]];
    }

    /** The same, where the slot is empty; it takes over the reference. */
    method Assign(ctx: nat, fd: nat, f: File)
      requires Inv() && Tied(tables, slots, max) && ctx in tables && fd < max && f in held && Slot(ctx, fd) !in slots
      modifies `slots, `held, `tables
      ensures Inv() && Tied(tables, slots, max) && tables.Keys == old(tables.Keys)
      ensures held == old(held) - multiset{f} && slots == old(slots)[Slot(ctx, fd) := f]
    {
      SetFile(ctx, fd, f, slots);
      Install(Slot(ctx, fd), f);
    }

    /** The same, where the reference is the only one in hand. */
    method Settle(ctx: nat, fd: nat, f: File, ghost lost: multiset<File>)
      requires Inv() && Tied(tables, slots, max) && ctx in tables && fd < max && max > 3 && Slot(ctx, fd) !in slots
      requires held == lost + multiset{f} && f !in lost && Lost(slots, lost)
      modifies `slots, `held, `tables
      ensures Valid() && held == lost && slots == old(slots)[Slot(ctx, fd) := f] && tables.Keys == old(tables.Keys)
    {
      Assign(ctx, fd, f);
      assert held == lost;
    }

    /** The reference of a slot that is about to be replaced, or emptied, is dropped. */
    method Vacate(k: Slot, f: File)
      requires Inv() && k in slots && f == slots[k]
      modifies `held, `slots, `objs, `pipes, `fileObjects, objs`refCount, pipes.Keys`isROpen, pipes.Keys`isWOpen
      ensures Inv() && held == old(held) && slots == old(slots) - {k}
      ensures objs <= old(objs) && pipes.Keys <= old(pipes.Keys)
    {
      Release(k);
      var _ := GenericClose(f);
    }

    /** What a used slot holds is closed, and f takes its place. */
    method Overwrite(ctx: nat, fd: nat, f: File)
      requires Inv() && Tied(tables, slots, max) && ctx in tables && fd < max && f in held && Slot(ctx, fd) in slots
      modifies `slots, `held, `tables, `objs, `pipes, `fileObjects, objs`refCount, pipes.Keys`isROpen,
               pipes.Keys`isWOpen
      ensures Inv() && Tied(tables, slots, max) && tables.Keys == old(tables.Keys)
      ensures objs <= old(objs) && pipes.Keys <= old(pipes.Keys)
      ensures held == old(held) - multiset{f} && slots == old(slots)[Slot(ctx, fd) := f]
    {
      PutAgain(slots, Slot(ctx, fd), f);
      ghost var was := slots;
      Vacate(Slot(ctx, fd), tables[ctx][fd]);
      SetFile(ctx, fd, f, was);
      Install(Slot(ctx, fd), f);
    }

    // ----- dup, dup2, close

    /** A free slot comes to name an object that has a name already. */
    method ShareAt(ctx: nat, fd: nat, f: File)
      requires Valid() && ctx in tables && fd < max && f in slots.Values && Slot(ctx, fd) !in slots
      modifies `held, `slots, `tables, objs`refCount
      ensures Valid() && held == old(held) && slots == old(slots)[Slot(ctx, fd) := f] && tables.Keys == old(tables.Keys)
    {
      ghost var lost := held;
      Hold(f);
      Settle(ctx, fd, f, lost);
    }

    /** fd_dup */
    method FdDup(ctx: Option<nat>, oldfd: int) returns (r: int)
      requires Valid() && (ctx.Some? ==> ctx.value in tables)
      modifies `held, `slots, `tables, objs`refCount
      ensures Valid() && held == old(held) && tables.Keys == old(tables.Keys)
      ensures ctx == None || !(0 <= oldfd < max) || Slot(ctx.value, oldfd) !in old(slots)
          ==> r == EINVAL && slots == old(slots)
      ensures ctx.Some? && 0 <= oldfd < max && Slot(ctx.value, oldfd) in old(slots) ==>
                if r == EOTHERS then Lowest(old(slots), ctx.value, 0, max) && slots == old(slots)
                else 0 <= r < max && Lowest(old(slots), ctx.value, 0, r)
                     && slots == old(slots)[Slot(ctx.value, r) := old(slots)[Slot(ctx.value, oldfd)]]
    {
      if oldfd >= max || oldfd < 0 {
        return EINVAL;
      }
      if ctx == None || tables[ctx.value][oldfd] == null {
        return EINVAL;
      }
      var f := tables[ctx.value][oldfd];
      var newfd := FindFree(ctx.value, 0);
      if newfd >= max {
        return EOTHERS;
      }
      ShareAt(ctx.value, newfd, f);
      return newfd;
    }

    /** fd_dup2 behind its checks: the reference is counted before the slot is closed. */
    method Replace(ctx: nat, newfd: nat, f: File)
      requires Valid() && ctx in tables && newfd < max && f in slots.Values
      modifies `slots, `held, `tables, `objs, `pipes, `fileObjects, objs`refCount, pipes.Keys`isROpen,
               pipes.Keys`isWOpen
      ensures Valid() && held == old(held) && tables.Keys == old(tables.Keys)
      ensures slots == old(slots)[Slot(ctx, newfd) := f]
      ensures objs <= old(objs) && pipes.Keys <= old(pipes.Keys)
    {
      Hold(f);
      if tables[ctx][newfd] != null {
        Overwrite(ctx, newfd, f);
      } else {
        Assign(ctx, newfd, f);
      }
    }

    /** fd_dup2 */
    method FdDup2(ctx: Option<nat>, oldfd: int, newfd: int) returns (r: int)
      requires Valid() && (ctx.Some? ==> ctx.value in tables)
      modifies `slots, `held, `tables, `objs, `pipes, `fileObjects, objs`refCount, pipes.Keys`isROpen,
               pipes.Keys`isWOpen
      ensures Valid() && held == old(held) && tables.Keys == old(tables.Keys)
      ensures objs <= old(objs) && pipes.Keys <= old(pipes.Keys)
      ensures ctx == None || !(0 <= oldfd < max) || !(0 <= newfd < max) || Slot(ctx.value, oldfd) !in old(slots)
        ==> r == EINVAL && slots == old(slots)
      ensures ctx.Some? && 0 <= oldfd < max && 0 <= newfd < max && Slot(ctx.value, oldfd) in old(slots)
        ==> r == newfd && slots == old(slots)[Slot(ctx.value, newfd) := old(slots)[Slot(ctx.value, oldfd)]]
    {
      if oldfd >= max || newfd >= max || oldfd < 0 || newfd < 0 {
        return EINVAL;
      }
      if ctx == None || tables[ctx.value][oldfd] == null {
        return EINVAL;
      }
      var f := tables[ctx.value][oldfd];
      Replace(ctx.value, newfd, f);
      return newfd;
    }

    /** The close system call: generic_close, and the slot is empty. */
    method Close(ctx: nat, fd: nat)
      requires Valid() && ctx in tables && Slot(ctx, fd) in slots
      modifies `slots, `held, `tables, `objs, `pipes, `fileObjects, objs`refCount, pipes.Keys`isROpen,
               pipes.Keys`isWOpen
      ensures Valid() && held == old(held) && tables.Keys == old(tables.Keys)
      ensures objs <= old(objs) && pipes.Keys <= old(pipes.Keys)
      ensures slots == old(slots) - {Slot(ctx, fd)}
    {
      ghost var was := slots;
      Vacate(Slot(ctx, fd), tables[ctx][fd]);
      SetFile(ctx, fd, null, was);
    }

    // ----- open

    /** A new object that is not a pipe's end. */
    method AllocPlain(ftype: Type, mode: int) returns (f: File)
      requires Inv() && ftype != Piped && Lost(slots, held)
      modifies `fileObjects, `objs, `held
      ensures Inv() && fresh(f) && f.ftype == ftype && f.mode == mode && held == old(held) + multiset{f}
      ensures objs == old(objs) + {f} && f !in old(held) && Lost(slots, held)
    {
      f := AllocFile(ftype, mode, null);
      PlainAdded(old(objs), pipes, f);
    }

    /** The part of do_regular_file_open behind the checks of the file: the object exists
        before the scan, and a full table loses it. */
    method OpenRegular(ctx: nat, mode: int) returns (r: Outcome, ghost f: File)
      requires Valid() && ctx in tables
      modifies `slots, `held, `tables, `objs, `fileObjects
      ensures Valid() && fresh(f) && f.ftype == Regular && f.mode == mode && objs == old(objs) + {f}
      ensures (r.Fd? || r == Error(EOTHERS)) && tables.Keys == old(tables.Keys)
      ensures r.Fd? ==>
                && r.fd < max && Lowest(old(slots), ctx, 3, r.fd)
                && slots == old(slots)[Slot(ctx, r.fd) := f] && held == old(held)
      ensures r.Error? ==> Lowest(old(slots), ctx, 3, max) && slots == old(slots) && held == old(held) + multiset{f}
    {
      var g := AllocPlain(Regular, mode);
      f := g;
      r := SettleLowest(ctx, g, old(held));
    }

    /** The scan from 3 on, and the new object's place, if there is one. */
    method SettleLowest(ctx: nat, f: File, ghost lost: multiset<File>) returns (r: Outcome)
      requires Inv() && Tied(tables, slots, max) && ctx in tables && max > 3
      requires held == lost + multiset{f} && f !in lost && Lost(slots, held) && Lost(slots, lost)
      modifies `slots, `held, `tables
      ensures Valid() && (r.Fd? || r == Error(EOTHERS)) && tables.Keys == old(tables.Keys)
      ensures r.Fd? ==>
                && r.fd < max && Lowest(old(slots), ctx, 3, r.fd)
                && slots == old(slots)[Slot(ctx, r.fd) := f] && held == lost
      ensures r.Error? ==> Lowest(old(slots), ctx, 3, max) && slots == old(slots) && held == old(held)
    {
      r := Error(EOTHERS);
      var fd := FindFree(ctx, 3);
      if fd < max {
        Settle(ctx, fd, f, lost);
        r := Fd(fd);
      }
    }

    /** ... of a stream that is open. */
    method ShareStandardIO(ctx: nat, g: File) returns (r: Outcome, ghost f: File)
      requires Valid() && ctx in tables && g in slots.Values
      modifies `slots, `held, `tables, objs`refCount
      ensures tables.Keys == old(tables.Keys) && f == g && (r.Fd? || r == Overrun)
      ensures Lowest(old(slots), ctx, 3, if r.Fd? then r.fd else max)
      ensures r.Fd? ==> Valid() && held == old(held) && r.fd < max && slots == old(slots)[Slot(ctx, r.fd) := g]
    {
      var fd := FindFree(ctx, 3);
      if fd >= max {
        return Overrun, g;
      }
      ShareAt(ctx, fd, g);
      return Fd(fd), g;
    }

    /** open_standard_IO: a second descriptor for a stream that is open already is searched
        for without an upper bound. */
    method OpenStandardIO(ctx: nat, stream: nat, ftype: Type) returns (r: Outcome, ghost f: File)
      requires Valid() && ctx in tables && stream < 3 && ftype != Piped
      modifies `slots, `held, `tables, `objs, `fileObjects, objs`refCount
      ensures (r.Fd? || r == Overrun) && tables.Keys == old(tables.Keys)
      ensures objs <= old(objs) + {f} && (f in old(objs) || fresh(f))
      ensures r.Fd? ==> Valid() && held == old(held) && r.fd < max && slots == old(slots)[Slot(ctx, r.fd) := f]
      ensures Slot(ctx, stream) !in old(slots) ==>
                r == Fd(stream) && fresh(f) && f.ftype == ftype && f.mode == if ftype == Stdin then O_READ else O_WRITE
      ensures Slot(ctx, stream) in old(slots) ==> f == old(slots)[Slot(ctx, stream)]
      ensures Slot(ctx, stream) in old(slots) ==> Lowest(old(slots), ctx, 3, if r.Fd? then r.fd else max)
    {
      if tables[ctx][stream] == null {
        var g := AllocPlain(ftype, if ftype == Stdin then O_READ else O_WRITE);
        Settle(ctx, stream, g, old(held));
        return Fd(stream), g;
      }
      r, f := ShareStandardIO(ctx, tables[ctx][stream]);
    }

    // ----- pipes

    method MakeEnd(p: PipeInfo, mode: int, ghost base: set<File>) returns (f: File)
      requires Counted(fileObjects, slots, objs, held) && Piping(base, pipes)
      modifies `held, `objs, `fileObjects
      ensures Counted(fileObjects, slots, objs, held) && Piping(base, pipes) && fresh(f) && f !in old(objs)
          && IsEnd(f, p, mode)
      ensures objs == old(objs) + {f} && held == old(held) + multiset{f}
    {
      f := AllocFile(Piped, mode, p);
    }

    /** The two objects and the pipe between them. */
    method MakeEnds() returns (r: File, w: File, p: PipeInfo)
      requires Inv()
      modifies `held, `objs, `pipes, `fileObjects
      ensures Inv() && held == old(held) + multiset{r} + multiset{w} && pipes == old(pipes)[p := Ends(r, w)]
      ensures objs == old(objs) + {r} + {w}
      ensures r !in old(held) && w !in old(held)
      ensures fresh(r) && fresh(w) && fresh(p) && r != w
    {
      p := new PipeInfo();
      r, w := MakeBoth(p);
      AddPipe(p, r, w);
    }

    ghost method AddPipe(p: PipeInfo, r: File, w: File)
      requires Counted(fileObjects, slots, objs, held) && Piping(objs, pipes[p := Ends(r, w)])
      modifies `pipes
      ensures Inv() && pipes == old(pipes)[p := Ends(r, w)]
    {
      pipes := pipes[p := Ends(r, w)];
    }

    method MakeBoth(p: PipeInfo) returns (r: File, w: File)
      requires Inv() && p !in pipes && p.isROpen && p.isWOpen
      modifies `held, `objs, `fileObjects
      ensures Counted(fileObjects, slots, objs, held) && Piping(objs, pipes[p := Ends(r, w)])
      ensures objs == old(objs) + {r} + {w}
      ensures held == old(held) + multiset{r} + multiset{w} && fresh(r) && fresh(w) && r != w
      ensures r !in old(held) && w !in old(held)
    {
      r := MakeEnd(p, O_READ, objs);
      w := MakeEnd(p, O_WRITE, old(objs));
      PipeAdded(old(objs), pipes, r, w, p);
    }

    method SettleBoth(ctx: nat, a: nat, f: File, b: nat, g: File, ghost lost: multiset<File>)
      requires Inv() && Tied(tables, slots, max) && ctx in tables && a < b < max && max > 3
      requires held == lost + multiset{f} + multiset{g} && f != g && f !in lost && g !in lost && Lost(slots, lost)
      requires Slot(ctx, a) !in slots && Slot(ctx, b) !in slots
      modifies `slots, `held, `tables
      ensures Valid() && held == lost && tables.Keys == old(tables.Keys)
      ensures slots == old(slots)[Slot(ctx, a) := f][Slot(ctx, b) := g]
    {
      Assign(ctx, a, f);
      assert held == lost + multiset{g};
      Settle(ctx, b, g, lost);
    }

    method PlacePipe(ctx: nat, a: nat, b: nat) returns (r: File, w: File, p: PipeInfo)
      requires Valid() && ctx in tables && a < b < max && Slot(ctx, a) !in slots && Slot(ctx, b) !in slots
      modifies `slots, `held, `tables, `objs, `pipes, `fileObjects
      ensures Valid() && held == old(held) && tables.Keys == old(tables.Keys)
      ensures pipes == old(pipes)[p := Ends(r, w)]
      ensures objs == old(objs) + {r} + {w}
      ensures slots == old(slots)[Slot(ctx, a) := r][Slot(ctx, b) := w]
      ensures fresh(r) && fresh(w) && fresh(p) && r != w
    {
      r, w, p := MakeEnds();
      SettleBoth(ctx, a, r, b, w, old(held));
    }

    /** What create_pipe comes to.  The second scan starts behind the first descriptor
        without a look at the end of the table: where the first one is the last slot, it
        reads past it. */
    ghost predicate Created(was: map<Slot, File>, now: map<Slot, File>,
                            before: map<PipeInfo, Ends>, after: map<PipeInfo, Ends>,
                            ctx: nat, res: Outcome, made: Option<(File, File, PipeInfo)>) {
      match res
      case Fd(_) => false
      case Error(code) => code == EOTHERS && now == was && after == before && Cramped(was, ctx)
      case Overrun => now == was && after == before && Lowest(was, ctx, 3, max - 1)
      case Both(a, b) =>
        && Lowest(was, ctx, 3, a) && Lowest(was, ctx, a + 1, b) && b < max
        && made.Some?
        && now == was[Slot(ctx, a) := made.value.0][Slot(ctx, b) := made.value.1]
        && after == before[made.value.2 := Ends(made.value.0, made.value.1)]
    }

    /** create_pipe */
    method CreatePipe(ctx: Option<nat>) returns (res: Outcome, ghost made: Option<(File, File, PipeInfo)>)
      requires Valid() && (ctx.Some? ==> ctx.value in tables)
      modifies `slots, `held, `tables, `objs, `pipes, `fileObjects
      ensures Valid() && held == old(held) && tables.Keys == old(tables.Keys)
      ensures (forall f :: f in objs ==> f in old(objs) || fresh(f))
          && (forall p :: p in pipes ==> p in old(pipes) || fresh(p))
      ensures ctx == None ==> res == Error(EINVAL) && slots == old(slots)
      ensures ctx.Some? ==> Created(old(slots), slots, old(pipes), pipes, ctx.value, res, made)
      ensures made.Some? ==> fresh(made.value.0) && fresh(made.value.1) && fresh(made.value.2)
    {
      res, made := Error(EINVAL), None;
      if ctx.Some? {
        res := PipeSlots(ctx.value);
        if res.Both? {
          var r, w, p := PlacePipe(ctx.value, res.fd0, res.fd1);
          made := Some((r, w, p));
        }
      }
    }

    /** The two scans. */
    method PipeSlots(ctx: nat) returns (res: Outcome)
      requires Tied(tables, slots, max) && ctx in tables && max > 3
      ensures !res.Fd?
      ensures res.Error? ==> res.code == EOTHERS && Cramped(slots, ctx)
      ensures res.Overrun? ==> Lowest(slots, ctx, 3, max - 1)
      ensures res.Both? ==>
                res.fd0 < res.fd1 < max && Lowest(slots, ctx, 3, res.fd0) && Lowest(slots, ctx, res.fd0 + 1, res.fd1)
    {
      var a := FindFree(ctx, 3);
      if a >= max {
        return Error(EOTHERS);
      }
      if a + 1 == max {
        return Overrun;
      }
      var b := FindFree(ctx, a + 1);
      return if b >= max then Error(EOTHERS) else Both(a, b);
    }

    /** There are no two free descriptors from 3 on, and the last one is not the only one. */
    ghost predicate Cramped(slots: map<Slot, File>, ctx: nat) {
      && !Lowest(slots, ctx, 3, max - 1)
      && forall i, j :: 3 <= i < j < max ==> Slot(ctx, i) in slots || Slot(ctx, j) in slots
    }

    // ----- processes

    /** A process starts with an empty table. */
    method Spawn(pid: nat)
      requires Valid() && pid !in tables
      modifies `tables
      ensures Valid() && tables == old(tables)[pid := seq(max, _ => null)]
    {
      tables := tables[pid := seq(max, _ => null)];
    }

    /** One slot of do_file_fork. */
    method Share(k: Slot, f: File?)
      requires Inv() && k !in slots && (f != null ==> f in objs)
      modifies `slots, `held, objs`refCount
      ensures Inv() && held == old(held) && slots == if f == null then old(slots) else old(slots)[k := f]
    {
      if f != null {
        Hold(f);
        Install(k, f);
      }
    }

    method ShareNth(parent: nat, child: nat, i: nat, ghost was: map<Slot, File>)
      requires Inv() && Tied(tables, was, max) && parent in tables && child !in tables && i < max
      requires slots == Copied(was, child, tables[parent], i)
      modifies `slots, `held, objs`refCount
      ensures Inv() && held == old(held) && slots == Copied(was, child, tables[parent], i + 1)
    {
      CopiedNext(tables, was, max, parent, child, i);
      Share(Slot(child, i), tables[parent][i]);
    }

    /** The child gets a copy of the parent's table; do_file_fork counts its references. */
    method DoFileFork(parent: nat, child: Option<nat>)
      requires Valid() && parent in tables && (child.Some? ==> child.value !in tables)
      modifies `slots, `held, `tables, objs`refCount
      ensures Valid() && held == old(held)
      ensures child == None ==> slots == old(slots) && tables == old(tables)
      ensures child.Some? ==>
                && tables == old(tables)[child.value := old(tables)[parent]]
                && Forked(old(slots), slots, parent, child.value)
    {
      if child == None {
        return;
      }
      Fork(parent, child.value);
    }

    method Fork(parent: nat, child: nat)
      requires Valid() && parent in tables && child !in tables
      modifies `slots, `held, `tables, objs`refCount
      ensures Valid() && held == old(held)
      ensures tables == old(tables)[child := old(tables)[parent]] && Forked(old(slots), slots, parent, child)
    {
      TiedFork(tables, slots, max, parent, child);
      ShareAll(parent, child);
      tables := tables[child := tables[parent]];
    }

    method ShareAll(parent: nat, child: nat)
      requires Valid() && parent in tables && child !in tables
      modifies `slots, `held, objs`refCount
      ensures Inv() && held == old(held) && slots == Copied(old(slots), child, tables[parent], max)
    {
      for i := 0 to max
        invariant Inv() && held == old(held) && slots == Copied(old(slots), child, tables[parent], i)
      {
        ShareNth(parent, child, i, old(slots));
      }
    }

    /** One slot of do_file_exit. */
    method DropNth(ctx: nat, i: nat, ghost was: map<Slot, File>)
      requires Inv() && Tied(tables, was, max) && ctx in tables && i < max && slots == Trimmed(was, ctx, i)
      modifies `slots, `held, `objs, `pipes, `fileObjects, objs`refCount, pipes.Keys`isROpen, pipes.Keys`isWOpen
      ensures Inv() && held == old(held) && slots == Trimmed(was, ctx, i + 1)
      ensures objs <= old(objs) && pipes.Keys <= old(pipes.Keys)
    {
      TrimmedNext(was, ctx, i);
      if tables[ctx][i] != null {
        Vacate(Slot(ctx, i), tables[ctx][i]);
      }
    }

    /** do_file_exit; the process is then gone. */
    method DoFileExit(ctx: Option<nat>)
      requires Valid() && (ctx.Some? ==> ctx.value in tables)
      modifies `slots, `held, `tables, `objs, `pipes, `fileObjects, objs`refCount, pipes.Keys`isROpen,
               pipes.Keys`isWOpen
      ensures Valid() && held == old(held)
      ensures objs <= old(objs) && pipes.Keys <= old(pipes.Keys)
      ensures if ctx == None then slots == old(slots) && tables == old(tables)
              else tables == old(tables) - {ctx.value} && slots == Trimmed(old(slots), ctx.value, max)
    {
      if ctx == None {
        return;
      }
      DropAll(ctx.value);
      TiedExit(tables, old(slots), max, ctx.value);
      tables := tables - {ctx.value};
    }

    method DropAll(ctx: nat)
      requires Valid() && ctx in tables
      modifies `slots, `held, `objs, `pipes, `fileObjects, objs`refCount, pipes.Keys`isROpen, pipes.Keys`isWOpen
      ensures Inv() && held == old(held) && slots == Trimmed(old(slots), ctx, max)
      ensures objs <= old(objs) && pipes.Keys <= old(pipes.Keys)
    {
      ghost var was := slots;
      assert slots == Trimmed(was, ctx, 0);
      for i := 0 to max
        invariant Inv() && held == old(held) && slots == Trimmed(was, ctx, i)
        invariant objs <= old(objs) && pipes.Keys <= old(pipes.Keys)
      {
        DropNth(ctx, i, was);
      }
    }

    // ----- any sequence of calls

    /** Slot k names a new object. */
    ghost predicate Names(was: map<Slot, File>, now: map<Slot, File>, k: Slot, ftype: Type, mode: int)
      reads now.Values`ftype, now.Values`mode
    {
      k in now && now[k] !in was.Values && now[k].ftype == ftype && now[k].mode == mode
    }

    /** What an open of a regular file does: nothing if the table is full. */
    ghost predicate Opened(was: map<Slot, File>, now: map<Slot, File>, pid: nat, mode: int)
      reads now.Values`ftype, now.Values`mode
    {
      if Lowest(was, pid, 3, max) then now == was
      else exists fd: nat ::
             && fd < max && Lowest(was, pid, 3, fd) && Names(was, now, Slot(pid, fd), Regular, mode)
             && now == was[Slot(pid, fd) := now[Slot(pid, fd)]]
    }

    /** What an open of a stream does: the stream's own slot, or a further name for it. */
    ghost predicate Streamed(was: map<Slot, File>, now: map<Slot, File>, pid: nat, stream: nat, ftype: Type)
      reads now.Values`ftype, now.Values`mode
    {
      if Slot(pid, stream) in was then Shared(was, now, pid, 3, was[Slot(pid, stream)])
      else
        && Names(was, now, Slot(pid, stream), ftype, if ftype == Stdin then O_READ else O_WRITE)
        && now == was[Slot(pid, stream) := now[Slot(pid, stream)]]
    }

    /** The lowest free descriptor from start on names f. */
    ghost predicate Shared(was: map<Slot, File>, now: map<Slot, File>, pid: nat, start: nat, f: File) {
      exists fd: nat :: fd < max && Lowest(was, pid, start, fd) && now == was[Slot(pid, fd) := f]
    }

    /** What create_pipe does: nothing if there are no two free descriptors. */
    ghost predicate PipeOpened(was: map<Slot, File>, now: map<Slot, File>, pid: nat)
      reads now.Values`ftype, now.Values`mode, now.Values`pipe
    {
      if Cramped(was, pid) then now == was
      else exists a: nat, b: nat ::
             && Lowest(was, pid, 3, a) && Lowest(was, pid, a + 1, b) && b < max
             && Names(was, now, Slot(pid, a), Piped, O_READ) && Names(was, now, Slot(pid, b), Piped, O_WRITE)
             && now[Slot(pid, a)].pipe == now[Slot(pid, b)].pipe
             && now == was[Slot(pid, a) := now[Slot(pid, a)]][Slot(pid, b) := now[Slot(pid, b)]]
    }

    /** What a call does to the slots and to the set of processes. */
    ghost predicate Did(call: Call, was: map<Slot, File>, pids: set<nat>, now: map<Slot, File>, pids': set<nat>)
      reads now.Values`ftype, now.Values`mode, now.Values`pipe
    {
      match call
      case SpawnCall(pid) => now == was && pids' == pids + {pid}
      case ForkCall(pid, child) =>
        if pid in pids && child !in pids then Forked(was, now, pid, child) && pids' == pids + {child}
        else now == was && pids' == pids
      case ExitCall(pid) =>
        if pid in pids then now == Trimmed(was, pid, max) && pids' == pids - {pid} else now == was && pids' == pids
      case _ => pids' == pids && if call.pid in pids then DidHere(call, was, now) else now == was
    }

    /** The calls that leave the processes as they are. */
    ghost predicate DidHere(call: Call, was: map<Slot, File>, now: map<Slot, File>)
      reads now.Values`ftype, now.Values`mode, now.Values`pipe
    {
      match call
      case OpenCall(pid, mode) => Opened(was, now, pid, mode)
      case StreamCall(pid, stream, ftype) =>
        if stream < 3 && ftype != Piped then Streamed(was, now, pid, stream, ftype) else now == was
      case PipeCall(pid) => PipeOpened(was, now, pid)
      case DupCall(pid, oldfd) =>
        if !(0 <= oldfd < max) || Slot(pid, oldfd) !in was || Lowest(was, pid, 0, max) then now == was
        else Shared(was, now, pid, 0, was[Slot(pid, oldfd)])
      case Dup2Call(pid, oldfd, newfd) =>
        if !(0 <= oldfd < max) || !(0 <= newfd < max) || Slot(pid, oldfd) !in was then now == was
        else now == was[Slot(pid, newfd) := was[Slot(pid, oldfd)]]
      case CloseCall(pid, fd) => now == was - {Slot(pid, fd)}
      case _ => true
    }

    /** The calls that read past a table. */
    ghost predicate Overreads(call: Call, was: map<Slot, File>, pids: set<nat>) {
      && call.pid in pids
      && match call
         case StreamCall(pid, stream, ftype) =>
           stream < 3 && ftype != Piped && Slot(pid, stream) in was && Lowest(was, pid, 3, max)
         case PipeCall(pid) => Lowest(was, pid, 3, max - 1)
         case _ => false
    }

    /** A call of some process; one that cannot be made changes nothing.  ok is false if it
        reads past a table. */
    method Perform(call: Call) returns (ok: bool)
      requires Valid()
      modifies this, objs`refCount, pipes.Keys`isROpen, pipes.Keys`isWOpen
      ensures ok <==> !Overreads(call, old(slots), old(tables.Keys))
      ensures ok ==> Valid() && Did(call, old(slots), old(tables.Keys), slots, tables.Keys)
      ensures forall f :: f in objs ==> f in old(objs) || fresh(f)
      ensures forall p :: p in pipes ==> p in old(pipes) || fresh(p)
    {
      ok := true;
      if call.SpawnCall? {
        if call.pid !in tables {
          Spawn(call.pid);
        }
      } else if call.pid in tables {
        ok := PerformIn(call);
      }
    }

    method PerformIn(call: Call) returns (ok: bool)
      requires Valid() && call.pid in tables && !call.SpawnCall?
      modifies `slots, `held, `tables, `objs, `pipes, `fileObjects, objs`refCount, pipes.Keys`isROpen,
               pipes.Keys`isWOpen
      ensures ok <==> !Overreads(call, old(slots), old(tables.Keys))
      ensures ok ==> Valid() && Did(call, old(slots), old(tables.Keys), slots, tables.Keys)
      ensures forall f :: f in objs ==> f in old(objs) || fresh(f)
      ensures forall p :: p in pipes ==> p in old(pipes) || fresh(p)
    {
      ok := true;
      if call.OpenCall? || call.StreamCall? || call.PipeCall? {
        ok := PerformOpen(call);
      } else if call.ForkCall? || call.ExitCall? {
        PerformProcess(call);
      } else {
        PerformShare(call);
      }
    }

    /** The calls that make objects. */
    method PerformOpen(call: Call) returns (ok: bool)
      requires Valid() && call.pid in tables && (call.OpenCall? || call.StreamCall? || call.PipeCall?)
      modifies `slots, `held, `tables, `objs, `pipes, `fileObjects, objs`refCount
      ensures ok <==> !Overreads(call, old(slots), old(tables.Keys))
      ensures ok ==> Valid() && DidHere(call, old(slots), slots) && tables.Keys == old(tables.Keys)
      ensures forall f :: f in objs ==> f in old(objs) || fresh(f)
      ensures forall p :: p in pipes ==> p in old(pipes) || fresh(p)
    {
      ok := true;
      match call
      case OpenCall(pid, mode) =>
        PerformFile(pid, mode);
      case StreamCall(pid, stream, ftype) =>
        if stream < 3 && ftype != Piped {
          ok := PerformStream(pid, stream, ftype);
        }
      case PipeCall(pid) =>
        ok := PerformPipe(pid);
      case _ =>
    }

    method PerformFile(pid: nat, mode: int)
      requires Valid() && pid in tables
      modifies `slots, `held, `tables, `objs, `fileObjects
      ensures Valid() && Opened(old(slots), slots, pid, mode) && tables.Keys == old(tables.Keys)
      ensures forall f :: f in objs ==> f in old(objs) || fresh(f)
    {
      var r, f := OpenRegular(pid, mode);
      if r.Fd? {
        assert slots[Slot(pid, r.fd)] == f;
      }
    }

    method PerformStream(pid: nat, stream: nat, ftype: Type) returns (ok: bool)
      requires Valid() && pid in tables && stream < 3 && ftype != Piped
      modifies `slots, `held, `tables, `objs, `fileObjects, objs`refCount
      ensures ok <==> !(Slot(pid, stream) in old(slots) && Lowest(old(slots), pid, 3, max))
      ensures ok ==> Valid() && Streamed(old(slots), slots, pid, stream, ftype)
      ensures tables.Keys == old(tables.Keys) && forall f :: f in objs ==> f in old(objs) || fresh(f)
    {
      var r, f := OpenStandardIO(pid, stream, ftype);
      ok := r != Overrun;
    }

    method PerformPipe(pid: nat) returns (ok: bool)
      requires Valid() && pid in tables
      modifies `slots, `held, `tables, `objs, `pipes, `fileObjects
      ensures ok <==> !Lowest(old(slots), pid, 3, max - 1)
      ensures Valid() && (ok ==> PipeOpened(old(slots), slots, pid)) && tables.Keys == old(tables.Keys)
      ensures forall f :: f in objs ==> f in old(objs) || fresh(f)
      ensures forall p :: p in pipes ==> p in old(pipes) || fresh(p)
    {
      var r, made := CreatePipe(Some(pid));
      ok := r != Overrun;
      if r.Both? {
        EndsOf(made.value.2);
        assert slots[Slot(pid, r.fd0)] == made.value.0 && slots[Slot(pid, r.fd1)] == made.value.1;
      }
    }

    /** The ends of a pipe, while they live. */
    lemma EndsOf(p: PipeInfo)
      requires Piping(objs, pipes) && p in pipes
      ensures pipes[p].reader != null ==> IsEnd(pipes[p].reader, p, O_READ)
      ensures pipes[p].writer != null ==> IsEnd(pipes[p].writer, p, O_WRITE)
    {
      assert p !in Faulty(objs, pipes);
    }

    /** The calls that make or drop references. */
    method PerformShare(call: Call)
      requires Valid() && call.pid in tables && (call.DupCall? || call.Dup2Call? || call.CloseCall?)
      modifies `slots, `held, `tables, `objs, `pipes, `fileObjects, objs`refCount, pipes.Keys`isROpen,
               pipes.Keys`isWOpen
      ensures Valid() && objs <= old(objs) && pipes.Keys <= old(pipes.Keys)
      ensures DidHere(call, old(slots), slots) && tables.Keys == old(tables.Keys)
    {
      match call
      case DupCall(pid, oldfd) =>
        var _ := FdDup(Some(pid), oldfd);
      case Dup2Call(pid, oldfd, newfd) =>
        var _ := FdDup2(Some(pid), oldfd, newfd);
      case CloseCall(pid, fd) =>
        if fd < max && tables[pid][fd] != null {
          Close(pid, fd);
        } else {
          assert Slot(pid, fd) !in slots;
          assert slots == slots - {Slot(pid, fd)};
        }
      case _ =>
    }

    /** The calls that start or end a process. */
    method PerformProcess(call: Call)
      requires Valid() && call.pid in tables && (call.ForkCall? || call.ExitCall?)
      modifies `slots, `held, `tables, `objs, `pipes, `fileObjects, objs`refCount, pipes.Keys`isROpen,
               pipes.Keys`isWOpen
      ensures Valid() && objs <= old(objs) && pipes.Keys <= old(pipes.Keys)
      ensures Did(call, old(slots), old(tables.Keys), slots, tables.Keys)
    {
      match call
      case ForkCall(pid, child) =>
        if child !in tables {
          DoFileFork(pid, Some(child));
        }
      case ExitCall(pid) =>
        DoFileExit(Some(pid));
      case _ =>
    }

    /** Any calls of any processes, in any order, as long as none reads past a table: each does
        what it promises.  The pipes not yet freed are those with an end alive: each is freed
        when its second end goes.  Those that the calls have made are new, so that one that has
        been freed is never there again: none is freed twice. */
    method PerformAll(calls: seq<Call>)
      returns (ok: bool, ghost states: seq<map<Slot, File>>, ghost pids: seq<set<nat>>)
      requires Valid()
      modifies this, objs`refCount, pipes.Keys`isROpen, pipes.Keys`isWOpen
      ensures 0 < |states| == |pids| <= |calls| + 1 && states[0] == old(slots) && pids[0] == old(tables.Keys)
      ensures DidAll(calls, states, pids)
      ensures if ok then |states| == |calls| + 1 && states[|calls|] == slots && pids[|calls|] == tables.Keys
              else CutShort(calls, states, pids)
      ensures ok ==> Valid()
      ensures ok ==> forall k :: k in slots ==> slots[k] in objs && slots[k].refCount == |Refs(slots, slots[k])|
      ensures ok ==> fileObjects == |objs| && objs == slots.Values + (set f | f in held)
      ensures ok ==> forall p :: p in pipes <==> HasEnd(objs, p)
      ensures forall f :: f in objs ==> f in old(objs) || fresh(f)
      ensures forall p :: p in pipes ==> p in old(pipes) || fresh(p)
    {
      ok, states, pids := PerformMany(calls);
      if ok {
        Lifetimes();
        PipesAlive();
      }
    }

    /** Each call has led from one state to the next. */
    ghost predicate DidAll(calls: seq<Call>, states: seq<map<Slot, File>>, pids: seq<set<nat>>)
      requires |states| == |pids| <= |calls| + 1
      reads Named(states)`ftype, Named(states)`mode, Named(states)`pipe
    {
      forall i :: 0 <= i < |states| - 1 ==> Did(calls[i], states[i], pids[i], states[i + 1], pids[i + 1])
    }

    /** The call behind the last state reads past a table. */
    ghost predicate CutShort(calls: seq<Call>, states: seq<map<Slot, File>>, pids: seq<set<nat>>) {
      exists i :: 0 <= i < |calls| && i + 1 == |states| == |pids| && Overreads(calls[i], states[i], pids[i])
    }

    /** The objects that a slot has named in any of the states. */
    ghost function Named(states: seq<map<Slot, File>>): set<File> {
      set i, f | 0 <= i < |states| && f in states[i].Values :: f
    }

    lemma DidMore(calls: seq<Call>, states: seq<map<Slot, File>>, pids: seq<set<nat>>, now: map<Slot, File>,
                  pids': set<nat>)
      requires 0 < |states| == |pids| <= |calls| && DidAll(calls, states, pids)
      requires forall i :: i == |states| - 1 ==> Did(calls[i], states[i], pids[i], now, pids')
      ensures DidAll(calls, states + [now], pids + [pids'])
    {
    }

    method PerformMany(calls: seq<Call>)
      returns (ok: bool, ghost states: seq<map<Slot, File>>, ghost pids: seq<set<nat>>)
      requires Valid()
      modifies this, objs`refCount, pipes.Keys`isROpen, pipes.Keys`isWOpen
      ensures 0 < |states| == |pids| <= |calls| + 1 && states[0] == old(slots) && pids[0] == old(tables.Keys)
      ensures DidAll(calls, states, pids)
      ensures if ok then |states| == |calls| + 1 && states[|calls|] == slots && pids[|calls|] == tables.Keys
              else CutShort(calls, states, pids)
      ensures ok ==> Valid()
      ensures forall f :: f in objs ==> f in old(objs) || fresh(f)
      ensures forall p :: p in pipes ==> p in old(pipes) || fresh(p)
    {
      ok, states, pids := true, [slots], [tables.Keys];
      for i := 0 to |calls|
        invariant Valid() && |states| == |pids| == i + 1 && states[i] == slots && pids[i] == tables.Keys
        invariant states[0] == old(slots) && pids[0] == old(tables.Keys)
        invariant DidAll(calls, states, pids)
        invariant forall f :: f in objs ==> f in old(objs) || fresh(f)
        invariant forall p :: p in pipes ==> p in old(pipes) || fresh(p)
      {
        ok := Perform(calls[i]);
        if !ok {
          return;
        }
        DidMore(calls, states, pids, slots, tables.Keys);
        states, pids := states + [slots], pids + [tables.Keys];
      }
      ok := true;
    }

    // ----- what it means

    /** What is alive is what a slot or a call refers to, and the statistics count it. */
    lemma Lifetimes()
      requires Valid()
      ensures objs == slots.Values + (set f | f in held)
      ensures fileObjects == |slots.Values + (set f | f in held)|
      ensures forall k :: k in slots ==> slots[k].refCount == |Refs(slots, slots[k])|
    {
      forall f | f in objs ensures f in slots.Values || f in held {
        assert f !in Miscounted(slots, objs, held);
        if f !in held {
          var k :| k in Refs(slots, f);
          assert slots[k] == f;
        }
      }
      forall k | k in slots ensures slots[k].refCount == |Refs(slots, slots[k])| {
        assert slots[k] !in Miscounted(slots, objs, held);
      }
    }

    /** A pipe is freed when the second of its ends has gone, and not before. */
    lemma PipesAlive()
      requires Valid()
      ensures forall p :: p in pipes <==> HasEnd(objs, p)
    {
      forall p | p in pipes ensures HasEnd(objs, p) {
        assert p !in Faulty(objs, pipes);
        assert IsEnd(if p.isROpen then pipes[p].reader else pipes[p].writer, p, if p.isROpen then O_READ else O_WRITE);
      }
      forall f: File | f in objs && f.ftype == Piped ensures f.pipe in pipes {
        assert f !in Strays(objs, pipes);
      }
    }

    /** A pipe that is not freed has an end to which somebody refers, and its flags tell
        which of its ends have. */
    lemma PipeLifetimes(p: PipeInfo)
      requires Valid() && p in pipes
      ensures p.isROpen || p.isWOpen
      ensures p.isROpen <==> exists f :: f in slots.Values + (set g | g in held) && IsEnd(f, p, O_READ)
      ensures p.isWOpen <==> exists f :: f in slots.Values + (set g | g in held) && IsEnd(f, p, O_WRITE)
    {
      Lifetimes();
      assert p !in Faulty(objs, pipes);
      forall f | f in objs && f.ftype == Piped && f.pipe == p ensures f == pipes[p].reader || f == pipes[p].writer {
        assert f !in Strays(objs, pipes);
      }
    }
  }
}
