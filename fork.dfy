// Process creation (kernel/fork.c): the thread limit set at boot, the
// clone flag checks and the error unwind of copy_process, the identity a
// new task gets, the trace event _do_fork reports, the flag rules of
// unshare, and the per-CPU process count.
//
// Flags are the 64-bit unsigned long clone_flags of arm64. Everything
// copy_process copies (memory, files, credentials, signals, namespaces)
// is reduced to which of its resources a call holds; whether each copy
// succeeds is decided by code this model does not include and is an
// oracle.

module Fork {
  import opened Base

  type Flags = bv64

  const CSIGNAL: Flags := 0xff
  const CLONE_VM: Flags := 0x100
  const CLONE_FS: Flags := 0x200
  const CLONE_FILES: Flags := 0x400
  const CLONE_SIGHAND: Flags := 0x800
  const CLONE_PTRACE: Flags := 0x2000
  const CLONE_VFORK: Flags := 0x4000
  const CLONE_PARENT: Flags := 0x8000
  const CLONE_THREAD: Flags := 0x1_0000
  const CLONE_NEWNS: Flags := 0x2_0000
  const CLONE_SYSVSEM: Flags := 0x4_0000
  const CLONE_UNTRACED: Flags := 0x80_0000
  const CLONE_NEWCGROUP: Flags := 0x200_0000
  const CLONE_NEWUTS: Flags := 0x400_0000
  const CLONE_NEWIPC: Flags := 0x800_0000
  const CLONE_NEWUSER: Flags := 0x1000_0000
  const CLONE_NEWPID: Flags := 0x2000_0000
  const CLONE_NEWNET: Flags := 0x4000_0000

  const SIGCHLD: Flags := 17

  const PTRACE_EVENT_FORK: int := 1
  const PTRACE_EVENT_VFORK: int := 2
  const PTRACE_EVENT_CLONE: int := 3

  const EAGAIN: int := 11
  const ERESTARTNOINTR: int := 513

  const MIN_THREADS: nat := 20
  // FUTEX_TID_MASK.
  const MAX_THREADS: nat := 0x3fff_ffff
  // arm64 kernel stacks are 16K.
  const THREAD_SIZE: nat := 16384

  // ---------------------------------------------------------------------
  // set_max_threads

  // The thread count memory allows before clamping: MAX_THREADS when
  // totalram_pages * PAGE_SIZE might not fit in 64 bits, else the number
  // of THREAD_SIZE stacks that fit in an eighth of memory.
  function MemThreads(totalram: nat): nat
  {
    if Fls(totalram) + Fls(PAGE_SIZE) > 64 then MAX_THREADS
    else totalram * PAGE_SIZE / (THREAD_SIZE * 8)
  }

  // set_max_threads: the value max_threads is set to.
  function SetMaxThreads(totalram: nat, suggested: nat): (r: nat)
    ensures MIN_THREADS <= r <= MAX_THREADS
    ensures suggested >= MIN_THREADS ==> r <= suggested
    ensures MIN_THREADS <= suggested <= MAX_THREADS && MemThreads(totalram) >= suggested ==> r == suggested
  {
    var threads := Min(MemThreads(totalram), suggested);
    if threads < MIN_THREADS then MIN_THREADS
    else if threads > MAX_THREADS then MAX_THREADS
    else threads
  }

  lemma {:induction false} Pow2Add(a: nat, b: nat)
    ensures Pow2(a + b) == Pow2(a) * Pow2(b)
  {
    if a > 0 {
      Pow2Add(a - 1, b);
    }
  }

  lemma {:induction false} Pow2Mono(a: nat, b: nat)
    requires a <= b
    ensures Pow2(a) <= Pow2(b)
  {
    if a < b {
      Pow2Mono(a, b - 1);
    }
  }

  lemma FlsPageSize()
    ensures Fls(PAGE_SIZE) == 13
  {
    assert Fls(1) == 1;
    assert Fls(8) == 4;
    assert Fls(64) == 7;
    assert Fls(512) == 10;
  }

  lemma Pow2Small()
    ensures Pow2(13) == 8192 && Pow2(16) == 0x1_0000
  {
    assert Pow2(2) == 4 by { Pow2Add(1, 1); }
    assert Pow2(4) == 16 by { Pow2Add(2, 2); }
    assert Pow2(8) == 256 by { Pow2Add(4, 4); }
    assert Pow2(13) == 8192 by { Pow2Add(8, 4); Pow2Add(12, 1); }
    Pow2Add(8, 8);
  }

  lemma Pow2Values()
    ensures Pow2(13) == 8192 && Pow2(64) == WORD
  {
    Pow2Small();
    assert Pow2(32) == 0x1_0000_0000 by { Pow2Add(16, 16); }
    Pow2Add(32, 32);
  }

  // The fls64 test is what keeps the 64-bit product exact: when it lets
  // the division run, totalram_pages * PAGE_SIZE is below 2^64.
  lemma ProductFits(totalram: nat)
    requires Fls(totalram) + Fls(PAGE_SIZE) <= 64
    ensures totalram * PAGE_SIZE < WORD
  {
    var e := Fls(totalram);
    FlsPageSize();
    FlsBounds(totalram);
    Pow2Values();
    Pow2Add(e, 13);
    Pow2Mono(e + 13, 64);
    var p := Pow2(e);
    assert totalram < p;
    assert p * 8192 <= WORD;
    assert totalram * 4096 < p * 4096;
  }

  lemma MulLe(a: nat, b: nat, k: nat)
    requires a <= b
    ensures a * k <= b * k
  {
  }

  lemma DivMulLe(m: nat, d: nat)
    requires d > 0
    ensures (m / d) * d <= m
  {
  }

  // Unless raised to MIN_THREADS, max_threads kernel stacks take at most
  // an eighth of memory.
  lemma MaxThreadsFitMemory(totalram: nat, suggested: nat)
    requires Fls(totalram) + Fls(PAGE_SIZE) <= 64
    requires SetMaxThreads(totalram, suggested) > MIN_THREADS
    ensures SetMaxThreads(totalram, suggested) * (THREAD_SIZE * 8) <= totalram * PAGE_SIZE
  {
    var m := totalram * PAGE_SIZE;
    var q := m / (THREAD_SIZE * 8);
    assert MemThreads(totalram) == q;
    DivMulLe(m, THREAD_SIZE * 8);
    MulLe(SetMaxThreads(totalram, suggested), q, THREAD_SIZE * 8);
  }

  // A larger suggestion never gives fewer threads.
  lemma SetMaxThreadsMono(totalram: nat, s1: nat, s2: nat)
    requires s1 <= s2
    ensures SetMaxThreads(totalram, s1) <= SetMaxThreads(totalram, s2)
  {
  }

  // ---------------------------------------------------------------------
  // The flag checks at the top of copy_process

  // copy_process's flag checks, in the source's order; parentUnkillable is
  // SIGNAL_UNKILLABLE on current's signal, pidNsDiffers that current's
  // active pid namespace is not the one its children get.
  function CheckCloneFlags(f: Flags, parentUnkillable: bool, pidNsDiffers: bool): int
  {
    if f & (CLONE_NEWNS | CLONE_FS) == CLONE_NEWNS | CLONE_FS then -EINVAL
    else if f & (CLONE_NEWUSER | CLONE_FS) == CLONE_NEWUSER | CLONE_FS then -EINVAL
    else if f & CLONE_THREAD != 0 && f & CLONE_SIGHAND == 0 then -EINVAL
    else if f & CLONE_SIGHAND != 0 && f & CLONE_VM == 0 then -EINVAL
    else if f & CLONE_PARENT != 0 && parentUnkillable then -EINVAL
    else if f & CLONE_THREAD != 0 && (f & (CLONE_NEWUSER | CLONE_NEWPID) != 0 || pidNsDiffers) then -EINVAL
    else 0
  }

  // The combinations copy_process accepts, as rules on the flags.
  predicate CloneFlagsConsistent(f: Flags, parentUnkillable: bool, pidNsDiffers: bool)
  {
    (f & CLONE_NEWNS != 0 ==> f & CLONE_FS == 0) &&
    (f & CLONE_NEWUSER != 0 ==> f & CLONE_FS == 0) &&
    (f & CLONE_THREAD != 0 ==> f & CLONE_SIGHAND != 0) &&
    (f & CLONE_SIGHAND != 0 ==> f & CLONE_VM != 0) &&
    (f & CLONE_PARENT != 0 ==> !parentUnkillable) &&
    (f & CLONE_THREAD != 0 ==> f & CLONE_NEWUSER == 0 && f & CLONE_NEWPID == 0 && !pidNsDiffers)
  }

  // The checks fail with -EINVAL exactly when a rule is broken, and pass
  // otherwise.
  lemma CloneFlagsChecked(f: Flags, parentUnkillable: bool, pidNsDiffers: bool)
    ensures CheckCloneFlags(f, parentUnkillable, pidNsDiffers) == 0 ||
            CheckCloneFlags(f, parentUnkillable, pidNsDiffers) == -EINVAL
    ensures CheckCloneFlags(f, parentUnkillable, pidNsDiffers) == 0 <==>
            CloneFlagsConsistent(f, parentUnkillable, pidNsDiffers)
  {
    var both1 := CLONE_NEWNS | CLONE_FS;
    var both2 := CLONE_NEWUSER | CLONE_FS;
    assert (f & both1 == both1) <==> (f & CLONE_NEWNS != 0 && f & CLONE_FS != 0);
    assert (f & both2 == both2) <==> (f & CLONE_NEWUSER != 0 && f & CLONE_FS != 0);
    assert (f & (CLONE_NEWUSER | CLONE_NEWPID) != 0) <==> (f & CLONE_NEWUSER != 0 || f & CLONE_NEWPID != 0);
  }

  // By the two rules above, a new thread always shares the address space.
  lemma ThreadSharesVm(f: Flags, parentUnkillable: bool, pidNsDiffers: bool)
    requires CheckCloneFlags(f, parentUnkillable, pidNsDiffers) == 0 && f & CLONE_THREAD != 0
    ensures f & CLONE_VM != 0 && f & CLONE_SIGHAND != 0
  {
    CloneFlagsChecked(f, parentUnkillable, pidNsDiffers);
  }

  // ---------------------------------------------------------------------
  // unshare

  // The flags unshare may be given.
  const UNSHARE_ALLOWED: Flags :=
    CLONE_THREAD | CLONE_FS | CLONE_NEWNS | CLONE_SIGHAND | CLONE_VM | CLONE_FILES | CLONE_SYSVSEM |
    CLONE_NEWUTS | CLONE_NEWIPC | CLONE_NEWNET | CLONE_NEWUSER | CLONE_NEWPID | CLONE_NEWCGROUP

  // f has at least one of the bits of m.
  predicate Has(f: Flags, m: Flags)
  {
    f & m != 0
  }

  // Every bit of x is set in y.
  predicate Sub(x: Flags, y: Flags)
  {
    x & y == x
  }

  // One rule of unshare: if f has test, add the bits of add.
  function Imply(f: Flags, test: Flags, add: Flags): Flags
  {
    if Has(f, test) then f | add else f
  }

  lemma HasOr(f: Flags, add: Flags, b: Flags)
    ensures Has(f | add, b) <==> Has(f, b) || Has(add, b)
  {
    AndOrDistrib(f, add, b);
    OrZero(f & b, add & b);
  }

  lemma AndOrDistrib(x: Flags, y: Flags, b: Flags)
    ensures (x | y) & b == (x & b) | (y & b)
  {
  }

  lemma OrZero(x: Flags, y: Flags)
    ensures x | y == 0 <==> x == 0 && y == 0
  {
  }

  lemma SubOr(f: Flags, add: Flags)
    ensures Sub(f, f | add)
  {
  }

  lemma HasImply(f: Flags, test: Flags, add: Flags, b: Flags)
    ensures Has(Imply(f, test, add), b) <==> Has(f, b) || (Has(f, test) && Has(add, b))
  {
    HasOr(f, add, b);
  }

  lemma SubImply(f: Flags, test: Flags, add: Flags)
    ensures Sub(f, Imply(f, test, add))
  {
    SubOr(f, add);
  }

  lemma ImplyBounded(f: Flags, test: Flags, add: Flags, g: Flags)
    requires Sub(f, g)
    requires Has(f, test) ==> Sub(add, g)
    ensures Sub(Imply(f, test, add), g)
  {
    if Has(f, test) {
      assert Sub(f | add, g);
    }
  }

  lemma ImplyNoop(f: Flags, test: Flags, add: Flags)
    requires Has(f, test) ==> Sub(add, f)
    ensures Imply(f, test, add) == f
  {
    if Has(f, test) {
      assert f | add == f;
    }
  }

  lemma HasSub(x: Flags, y: Flags, b: Flags)
    requires Sub(x, y) && Has(x, b)
    ensures Has(y, b)
  {
  }

  lemma SubTrans(x: Flags, y: Flags, z: Flags)
    requires Sub(x, y) && Sub(y, z)
    ensures Sub(x, z)
  {
  }

  lemma SingleBits(g: Flags)
    ensures Has(g, CLONE_THREAD) ==> Sub(CLONE_THREAD, g)
    ensures Has(g, CLONE_FS) ==> Sub(CLONE_FS, g)
    ensures Has(g, CLONE_SIGHAND) ==> Sub(CLONE_SIGHAND, g)
    ensures Has(g, CLONE_THREAD) && Has(g, CLONE_FS) ==> Sub(CLONE_THREAD | CLONE_FS, g)
  {
  }

  // What unsharing one thing forces to be unshared as well.
  predicate UnshareClosed(f: Flags)
  {
    (Has(f, CLONE_NEWUSER) ==> Has(f, CLONE_THREAD) && Has(f, CLONE_FS)) &&
    (Has(f, CLONE_VM) ==> Has(f, CLONE_SIGHAND)) &&
    (Has(f, CLONE_SIGHAND) ==> Has(f, CLONE_THREAD)) &&
    (Has(f, CLONE_NEWNS) ==> Has(f, CLONE_FS))
  }

  // The flags unshare ends up with: its four rules applied in order.
  function UnshareClosure(f: Flags): Flags
  {
    Imply(Imply(Imply(Imply(f, CLONE_NEWUSER, CLONE_THREAD | CLONE_FS), CLONE_VM, CLONE_SIGHAND),
                CLONE_SIGHAND, CLONE_THREAD), CLONE_NEWNS, CLONE_FS)
  }

  // One `if (unshare_flags & test) unshare_flags |= add;` of unshare.
  method ApplyRule(f: Flags, test: Flags, add: Flags) returns (g: Flags)
    ensures g == Imply(f, test, add)
  {
    g := f;
    if f & test != 0 {
      g := f | add;
    }
  }

  // The implication block at the start of unshare.
  method ImplyUnshareFlags(flags: Flags) returns (f: Flags)
    ensures f == UnshareClosure(flags)
  {
    f := ApplyRule(flags, CLONE_NEWUSER, CLONE_THREAD | CLONE_FS);
    f := ApplyRule(f, CLONE_VM, CLONE_SIGHAND);
    f := ApplyRule(f, CLONE_SIGHAND, CLONE_THREAD);
    f := ApplyRule(f, CLONE_NEWNS, CLONE_FS);
  }

  // The result keeps every requested flag and obeys all four rules,
  // although each rule is applied once and in a fixed order.
  lemma UnshareClosureClosed(flags: Flags)
    ensures Sub(flags, UnshareClosure(flags))
    ensures UnshareClosed(UnshareClosure(flags))
  {
    var f1 := Imply(flags, CLONE_NEWUSER, CLONE_THREAD | CLONE_FS);
    var f2 := Imply(f1, CLONE_VM, CLONE_SIGHAND);
    var f3 := Imply(f2, CLONE_SIGHAND, CLONE_THREAD);
    var f4 := Imply(f3, CLONE_NEWNS, CLONE_FS);
    SubImply(flags, CLONE_NEWUSER, CLONE_THREAD | CLONE_FS);
    SubImply(f1, CLONE_VM, CLONE_SIGHAND);
    SubImply(f2, CLONE_SIGHAND, CLONE_THREAD);
    SubImply(f3, CLONE_NEWNS, CLONE_FS);
    SubTrans(flags, f1, f2);
    SubTrans(flags, f2, f3);
    SubTrans(flags, f3, f4);
    SubTrans(f1, f2, f3);
    SubTrans(f1, f3, f4);
    SubTrans(f2, f3, f4);
    // NEWUSER is never added, so it is in f4 only if in flags.
    HasImply(flags, CLONE_NEWUSER, CLONE_THREAD | CLONE_FS, CLONE_THREAD);
    HasImply(flags, CLONE_NEWUSER, CLONE_THREAD | CLONE_FS, CLONE_FS);
    HasImply(f1, CLONE_VM, CLONE_SIGHAND, CLONE_NEWUSER);
    HasImply(f2, CLONE_SIGHAND, CLONE_THREAD, CLONE_NEWUSER);
    HasImply(f3, CLONE_NEWNS, CLONE_FS, CLONE_NEWUSER);
    HasImply(flags, CLONE_NEWUSER, CLONE_THREAD | CLONE_FS, CLONE_NEWUSER);
    // VM is never added.
    HasImply(flags, CLONE_NEWUSER, CLONE_THREAD | CLONE_FS, CLONE_VM);
    HasImply(f1, CLONE_VM, CLONE_SIGHAND, CLONE_VM);
    HasImply(f2, CLONE_SIGHAND, CLONE_THREAD, CLONE_VM);
    HasImply(f3, CLONE_NEWNS, CLONE_FS, CLONE_VM);
    HasImply(f1, CLONE_VM, CLONE_SIGHAND, CLONE_SIGHAND);
    // SIGHAND is added only at the second rule, before the third.
    HasImply(f2, CLONE_SIGHAND, CLONE_THREAD, CLONE_SIGHAND);
    HasImply(f3, CLONE_NEWNS, CLONE_FS, CLONE_SIGHAND);
    HasImply(f2, CLONE_SIGHAND, CLONE_THREAD, CLONE_THREAD);
    // NEWNS is never added.
    HasImply(flags, CLONE_NEWUSER, CLONE_THREAD | CLONE_FS, CLONE_NEWNS);
    HasImply(f1, CLONE_VM, CLONE_SIGHAND, CLONE_NEWNS);
    HasImply(f2, CLONE_SIGHAND, CLONE_THREAD, CLONE_NEWNS);
    HasImply(f3, CLONE_NEWNS, CLONE_FS, CLONE_NEWNS);
    HasImply(f3, CLONE_NEWNS, CLONE_FS, CLONE_FS);
    if Has(f4, CLONE_NEWUSER) {
      HasSub(f1, f4, CLONE_THREAD);
      HasSub(f1, f4, CLONE_FS);
    }
    if Has(f4, CLONE_VM) {
      HasSub(f2, f4, CLONE_SIGHAND);
    }
    if Has(f4, CLONE_SIGHAND) {
      HasSub(f3, f4, CLONE_THREAD);
    }
  }

  // It adds nothing the rules do not force: every closed superset of
  // the request contains it.
  lemma UnshareClosureLeast(flags: Flags, g: Flags)
    requires Sub(flags, g) && UnshareClosed(g)
    ensures Sub(UnshareClosure(flags), g)
  {
    var f1 := Imply(flags, CLONE_NEWUSER, CLONE_THREAD | CLONE_FS);
    var f2 := Imply(f1, CLONE_VM, CLONE_SIGHAND);
    var f3 := Imply(f2, CLONE_SIGHAND, CLONE_THREAD);
    SingleBits(g);
    if Has(flags, CLONE_NEWUSER) { HasSub(flags, g, CLONE_NEWUSER); }
    ImplyBounded(flags, CLONE_NEWUSER, CLONE_THREAD | CLONE_FS, g);
    if Has(f1, CLONE_VM) { HasSub(f1, g, CLONE_VM); }
    ImplyBounded(f1, CLONE_VM, CLONE_SIGHAND, g);
    if Has(f2, CLONE_SIGHAND) { HasSub(f2, g, CLONE_SIGHAND); }
    ImplyBounded(f2, CLONE_SIGHAND, CLONE_THREAD, g);
    if Has(f3, CLONE_NEWNS) { HasSub(f3, g, CLONE_NEWNS); }
    ImplyBounded(f3, CLONE_NEWNS, CLONE_FS, g);
  }

  // Flags that already obey the rules are left as they are.
  lemma UnshareClosureFixed(g: Flags)
    requires UnshareClosed(g)
    ensures UnshareClosure(g) == g
  {
    SingleBits(g);
    ImplyNoop(g, CLONE_NEWUSER, CLONE_THREAD | CLONE_FS);
    ImplyNoop(g, CLONE_VM, CLONE_SIGHAND);
    ImplyNoop(g, CLONE_SIGHAND, CLONE_THREAD);
    ImplyNoop(g, CLONE_NEWNS, CLONE_FS);
  }

  // Applying the rules again changes nothing.
  lemma UnshareClosureIdempotent(flags: Flags)
    ensures UnshareClosure(UnshareClosure(flags)) == UnshareClosure(flags)
  {
    UnshareClosureClosed(flags);
    UnshareClosureFixed(UnshareClosure(flags));
  }

  // check_unshare_flags: threadGroupEmpty is thread_group_empty(current),
  // sighandCount current's sighand->count, singleThreaded
  // current_is_single_threaded().
  function CheckUnshareFlags(f: Flags, threadGroupEmpty: bool, sighandCount: nat, singleThreaded: bool): int
  {
    if f & !UNSHARE_ALLOWED != 0 then -EINVAL
    else if f & (CLONE_THREAD | CLONE_SIGHAND | CLONE_VM) != 0 && !threadGroupEmpty then -EINVAL
    else if f & (CLONE_SIGHAND | CLONE_VM) != 0 && sighandCount > 1 then -EINVAL
    else if f & CLONE_VM != 0 && !singleThreaded then -EINVAL
    else 0
  }

  // check_unshare_flags passes exactly when every flag is one unshare
  // knows and the parts to unshare are not shared with other threads;
  // otherwise it gives -EINVAL.
  lemma UnshareFlagsChecked(f: Flags, threadGroupEmpty: bool, sighandCount: nat, singleThreaded: bool)
    ensures CheckUnshareFlags(f, threadGroupEmpty, sighandCount, singleThreaded) == 0 ||
            CheckUnshareFlags(f, threadGroupEmpty, sighandCount, singleThreaded) == -EINVAL
    ensures CheckUnshareFlags(f, threadGroupEmpty, sighandCount, singleThreaded) == 0 <==>
            f & UNSHARE_ALLOWED == f &&
            (f & CLONE_THREAD != 0 || f & CLONE_SIGHAND != 0 || f & CLONE_VM != 0 ==> threadGroupEmpty) &&
            (f & CLONE_SIGHAND != 0 || f & CLONE_VM != 0 ==> sighandCount <= 1) &&
            (f & CLONE_VM != 0 ==> singleThreaded)
  {
    assert (f & !UNSHARE_ALLOWED == 0) <==> (f & UNSHARE_ALLOWED == f);
    assert (f & (CLONE_THREAD | CLONE_SIGHAND | CLONE_VM) != 0) <==>
           (f & CLONE_THREAD != 0 || f & CLONE_SIGHAND != 0 || f & CLONE_VM != 0);
    assert (f & (CLONE_SIGHAND | CLONE_VM) != 0) <==> (f & CLONE_SIGHAND != 0 || f & CLONE_VM != 0);
  }

  // ---------------------------------------------------------------------
  // _do_fork: the ptrace event to report

  // The event _do_fork reports to a tracer; enabled says which events
  // current's tracer asked for.
  function TraceEvent(f: Flags, enabled: int -> bool): int
  {
    if f & CLONE_UNTRACED != 0 then 0
    else
      var ev := if f & CLONE_VFORK != 0 then PTRACE_EVENT_VFORK
                else if f & CSIGNAL != SIGCHLD then PTRACE_EVENT_CLONE
                else PTRACE_EVENT_FORK;
      if enabled(ev) then ev else 0
  }

  // The event names the kind of fork: vfork, a fork whose child signals
  // its parent with SIGCHLD, or any other clone; none is reported for
  // CLONE_UNTRACED or when the tracer does not want it.
  lemma TraceEventKinds(f: Flags, enabled: int -> bool)
    ensures TraceEvent(f, enabled) in {0, PTRACE_EVENT_FORK, PTRACE_EVENT_VFORK, PTRACE_EVENT_CLONE}
    ensures TraceEvent(f, enabled) != 0 <==>
            f & CLONE_UNTRACED == 0 &&
            enabled(if f & CLONE_VFORK != 0 then PTRACE_EVENT_VFORK
                    else if f & CSIGNAL != SIGCHLD then PTRACE_EVENT_CLONE else PTRACE_EVENT_FORK)
    ensures TraceEvent(f, enabled) == PTRACE_EVENT_VFORK ==> f & CLONE_VFORK != 0
    ensures TraceEvent(f, enabled) == PTRACE_EVENT_FORK ==> f & CLONE_VFORK == 0 && f & CSIGNAL == SIGCHLD
    ensures TraceEvent(f, enabled) == PTRACE_EVENT_CLONE ==> f & CLONE_VFORK == 0 && f & CSIGNAL != SIGCHLD
  {
  }

  // ---------------------------------------------------------------------
  // Identity of the new task

  // The part of a task copy_process sets last: pid, thread group id,
  // group leader (by pid) and the signal sent to the parent on exit.
  datatype Identity = Identity(pid: nat, tgid: nat, leader: nat, exitSignal: int)

  // In a thread group the tgid is the leader's pid.
  predicate GroupConsistent(t: Identity)
  {
    t.tgid == t.leader
  }

  // A task leads its thread group when it is its own group leader.
  // thread_group_leader() tests exit_signal >= 0 instead, which agrees
  // on every identity copy_process assigns (LeaderExitSignal).
  predicate GroupLeader(t: Identity)
  {
    t.leader == t.pid
  }

  // The identity assignment of copy_process: a thread joins current's
  // group and signals nobody; a process leads a group of its own.
  function AssignIdentity(f: Flags, pid: nat, cur: Identity, leaderExitSignal: int): Identity
  {
    if f & CLONE_THREAD != 0 then
      Identity(pid, cur.tgid, cur.leader, -1)
    else
      var sig := if f & CLONE_PARENT != 0 then leaderExitSignal else (f & CSIGNAL) as int;
      Identity(pid, pid, pid, sig)
  }

  // The new task is a group leader exactly when it is not a thread (its
  // pid being new), it keeps the tgid/leader invariant, and a new process
  // signals its parent with a signal number from the flags (or the one
  // current's leader uses, under CLONE_PARENT).
  lemma IdentityAssigned(f: Flags, pid: nat, cur: Identity, leaderExitSignal: int)
    requires GroupConsistent(cur) && pid != cur.leader
    ensures GroupConsistent(AssignIdentity(f, pid, cur, leaderExitSignal))
    ensures GroupLeader(AssignIdentity(f, pid, cur, leaderExitSignal)) <==> f & CLONE_THREAD == 0
    ensures AssignIdentity(f, pid, cur, leaderExitSignal).pid == pid
    ensures f & CLONE_THREAD != 0 ==> AssignIdentity(f, pid, cur, leaderExitSignal).tgid == cur.tgid &&
                                      AssignIdentity(f, pid, cur, leaderExitSignal).exitSignal == -1
    ensures f & CLONE_THREAD == 0 && f & CLONE_PARENT == 0 ==>
              0 <= AssignIdentity(f, pid, cur, leaderExitSignal).exitSignal < 256
    ensures f & CLONE_THREAD == 0 && f & CLONE_PARENT != 0 ==>
              AssignIdentity(f, pid, cur, leaderExitSignal).exitSignal == leaderExitSignal
  {
    if f & CLONE_THREAD == 0 && f & CLONE_PARENT == 0 {
      assert f & CSIGNAL <= 0xff;
    }
  }

  // thread_group_leader(p), the test copy_process makes before counting
  // the new process, is p->exit_signal >= 0: only threads get -1. It
  // picks out the same tasks as GroupLeader as long as current's leader
  // has a real exit signal itself.
  lemma LeaderExitSignal(f: Flags, pid: nat, cur: Identity, leaderExitSignal: int)
    requires pid != cur.leader && leaderExitSignal >= 0
    ensures GroupLeader(AssignIdentity(f, pid, cur, leaderExitSignal)) <==>
            AssignIdentity(f, pid, cur, leaderExitSignal).exitSignal >= 0
  {
    if f & CLONE_THREAD == 0 && f & CLONE_PARENT == 0 {
      assert f & CSIGNAL <= 0xff;
    }
  }

  // ---------------------------------------------------------------------
  // The error ladder of copy_process

  // What a copy_process call holds, in the order it takes it. TaskStruct
  // is dup_task_struct's copy; Creds copy_creds (with the user's process
  // count); GroupLock threadgroup_change_begin with delay accounting;
  // the rest are what mpol_dup, perf_event_init_task, audit_alloc,
  // copy_semundo, copy_files, copy_fs, copy_sighand, copy_signal, copy_mm,
  // copy_namespaces, copy_io, alloc_pid and cgroup_can_fork set up.
  datatype Res = TaskStruct | Creds | GroupLock | Policy | PerfEvents | Audit | SemUndo | Files | Fs
               | Sighand | Signal | Mm | Namespaces | Io | Pid | Cgroup

  const ORDER: seq<Res> :=
    [TaskStruct, Creds, GroupLock, Policy, PerfEvents, Audit, SemUndo, Files, Fs,
     Sighand, Signal, Mm, Namespaces, Io, Pid, Cgroup]

  // The conditions under which a setup step takes nothing, and the
  // matching cleanup does nothing: copy_signal shares current's signal
  // for a thread, copy_mm leaves a kernel thread without mm, copy_io may
  // find no io_context to share, and the idle task keeps init_struct_pid.
  datatype Cond = Cond(thread: bool, hasMm: bool, hasIo: bool, idle: bool)

  predicate Held(r: Res, c: Cond)
  {
    match r
    case Signal => !c.thread
    case Mm => c.hasMm
    case Io => c.hasIo
    case Pid => !c.idle
    case _ => true
  }

  // A setup step of copy_process: the ladder label its failure jumps to,
  // written as the number of cleanups below it (fork_out is 0,
  // bad_fork_free 1, ..., bad_fork_cancel_cgroup 16); the error code when
  // it is fixed (0: whatever the step returned); and whether success
  // takes the next resource of ORDER.
  datatype Step = Step(target: nat, code: int, takes: bool)

  // The twenty-one steps between the flag checks and the commit, in the
  // source's order: security_task_create, dup_task_struct, the RLIMIT_NPROC
  // test, copy_creds, the max_threads test, mpol_dup, sched_fork,
  // perf_event_init_task, audit_alloc, copy_semundo, copy_files, copy_fs,
  // copy_sighand, copy_signal, copy_mm, copy_namespaces, copy_io,
  // copy_thread_tls, alloc_pid, cgroup_can_fork and the pending-signal test.
  const STEPS: seq<Step> :=
    [Step(0, 0, false), Step(0, -ENOMEM, true), Step(1, -EAGAIN, false), Step(1, 0, true),
     Step(2, -EAGAIN, true), Step(3, 0, true), Step(4, 0, false), Step(4, 0, true),
     Step(5, 0, true), Step(6, 0, true), Step(7, 0, true), Step(8, 0, true),
     Step(9, 0, true), Step(10, 0, true), Step(11, 0, true), Step(12, 0, true),
     Step(13, 0, true), Step(14, 0, false), Step(14, 0, true), Step(15, 0, true),
     Step(16, -ERESTARTNOINTR, false)]

  const MAX_THREADS_STEP: nat := 4
  const ALLOC_PID_STEP: nat := 18

  // From step k on, with n resources taken so far, every step's label
  // names exactly the n resources taken before it.
  predicate LabelsMatch(k: nat, n: nat)
    decreases |STEPS| - k
  {
    n <= |ORDER| && k <= |STEPS| &&
    (k == |STEPS| ==> n == |ORDER|) &&
    (k < |STEPS| ==> STEPS[k].target == n && LabelsMatch(k + 1, if STEPS[k].takes then n + 1 else n))
  }

  // The ladder's labels are where the source puts them.
  lemma LadderLabels()
    ensures LabelsMatch(0, 0)
  {
    assert LabelsMatch(21, 16);
    assert LabelsMatch(18, 14);
    assert LabelsMatch(14, 11);
    assert LabelsMatch(10, 7);
    assert LabelsMatch(6, 4);
    assert LabelsMatch(3, 1);
  }

  // LadderLabels for a walk about to start, stated on variables so that
  // the walk does not unfold the whole table.
  lemma LabelsStart(k: nat, n: nat)
    requires k == 0 && n == 0
    ensures LabelsMatch(k, n)
  {
    LadderLabels();
  }

  lemma LabelNext(k: nat, n: nat)
    requires k < |STEPS| && LabelsMatch(k, n)
    ensures LabelsMatch(k + 1, if STEPS[k].takes then n + 1 else n)
    ensures STEPS[k].takes ==> n < |ORDER|
  {
  }

  // Taking ORDER[n], when the call needs it, extends the trace by it.
  lemma TakeNext(base: seq<Event>, n: nat, c: Cond)
    requires n < |ORDER|
    ensures Held(ORDER[n], c) ==>
              (base + Takes(HeldUpTo(n, c))) + [Took(ORDER[n])] == base + Takes(HeldUpTo(n + 1, c))
    ensures !Held(ORDER[n], c) ==> base + Takes(HeldUpTo(n, c)) == base + Takes(HeldUpTo(n + 1, c))
  {
    TakesSnoc(HeldUpTo(n, c), ORDER[n], Held(ORDER[n], c));
  }

  lemma LabelsEnd(n: nat)
    requires LabelsMatch(|STEPS|, n)
    ensures n == |ORDER|
  {
  }

  lemma LabelAt(k: nat, n: nat)
    requires k < |STEPS| && LabelsMatch(k, n)
    ensures STEPS[k].target == n && n <= |ORDER|
  {
  }

  // The resources among the first n of ORDER a call really takes.
  function HeldUpTo(n: nat, c: Cond): seq<Res>
    requires n <= |ORDER|
  {
    if n == 0 then [] else HeldUpTo(n - 1, c) + (if Held(ORDER[n - 1], c) then [ORDER[n - 1]] else [])
  }

  datatype Event = Took(r: Res) | Released(r: Res)

  function Takes(rs: seq<Res>): seq<Event>
  {
    if rs == [] then [] else Takes(rs[..|rs| - 1]) + [Took(rs[|rs| - 1])]
  }

  function Releases(rs: seq<Res>): seq<Event>
  {
    if rs == [] then [] else Releases(rs[..|rs| - 1]) + [Released(rs[|rs| - 1])]
  }

  function Reverse(rs: seq<Res>): seq<Res>
  {
    if rs == [] then [] else [rs[|rs| - 1]] + Reverse(rs[..|rs| - 1])
  }

  // The cleanups run from ladder label n down to fork_out.
  function Ladder(n: nat, c: Cond): seq<Event>
    requires n <= |ORDER|
  {
    if n == 0 then []
    else (if Held(ORDER[n - 1], c) then [Released(ORDER[n - 1])] else []) + Ladder(n - 1, c)
  }

  // Label i of the ladder releases ORDER[i - 1] when the call took it,
  // then falls through to label i - 1.
  lemma LadderUnfold(log: seq<Event>, i: nat, c: Cond)
    requires 0 < i <= |ORDER|
    ensures Held(ORDER[i - 1], c) ==> log + Ladder(i, c) == (log + [Released(ORDER[i - 1])]) + Ladder(i - 1, c)
    ensures !Held(ORDER[i - 1], c) ==> log + Ladder(i, c) == log + Ladder(i - 1, c)
  {
    if Held(ORDER[i - 1], c) {
      assert (log + [Released(ORDER[i - 1])]) + Ladder(i - 1, c) == log + ([Released(ORDER[i - 1])] + Ladder(i - 1, c));
    }
  }

  lemma {:induction false} ReleasesCons(r: Res, rs: seq<Res>)
    ensures Releases([r] + rs) == [Released(r)] + Releases(rs)
    decreases |rs|
  {
    if rs != [] {
      var xs := [r] + rs;
      assert xs[..|xs| - 1] == [r] + rs[..|rs| - 1];
      ReleasesCons(r, rs[..|rs| - 1]);
    } else {
      assert ([r] + rs)[..0] == [];
    }
  }

  lemma {:induction false} ReverseSnoc(h: seq<Res>, x: Res)
    ensures Reverse(h + [x]) == [x] + Reverse(h)
  {
    var h1 := h + [x];
    assert h1[..|h1| - 1] == h;
  }

  // One more resource on top of h: releasing in reverse starts with it.
  lemma LadderStep(h: seq<Res>, x: Res, held: bool)
    ensures Releases(Reverse(h + (if held then [x] else []))) ==
            (if held then [Released(x)] else []) + Releases(Reverse(h))
  {
    if held {
      ReverseSnoc(h, x);
      ReleasesCons(x, Reverse(h));
    } else {
      assert h + [] == h;
    }
  }

  // Falling through the ladder from label n releases what the first n
  // steps of ORDER took, newest first.
  lemma {:induction false} LadderReleasesInReverse(n: nat, c: Cond)
    requires n <= |ORDER|
    ensures Ladder(n, c) == Releases(Reverse(HeldUpTo(n, c)))
  {
    if n > 0 {
      LadderReleasesInReverse(n - 1, c);
      var x := ORDER[n - 1];
      LadderStep(HeldUpTo(n - 1, c), x, Held(x, c));
    }
  }

  // The error a failing step returns: its fixed code, or what its call
  // returned.
  function StepError(k: nat, answers: nat -> int): int
    requires k < |STEPS|
  {
    if STEPS[k].code != 0 then STEPS[k].code else answers(k)
  }

  // A failing step always returns a negative error.
  lemma StepErrorNegative(k: nat, answers: nat -> int)
    requires k < |STEPS| && (k == MAX_THREADS_STEP || answers(k) < 0)
    ensures StepError(k, answers) < 0
  {
  }

  // The conditions of a copy_process call with flags f.
  function CondOf(f: Flags, hasMm: bool, hasIo: bool, idle: bool): Cond
  {
    Cond(f & CLONE_THREAD != 0, hasMm, hasIo, idle)
  }

  // The trace of a call that took the first n resources of ORDER and
  // then fell through the ladder.
  function TakenThenReleased(n: nat, c: Cond): seq<Event>
    requires n <= |ORDER|
  {
    Takes(HeldUpTo(n, c)) + Releases(Reverse(HeldUpTo(n, c)))
  }

  lemma LadderTrace(base: seq<Event>, n: nat, c: Cond)
    requires n <= |ORDER|
    ensures base + Takes(HeldUpTo(n, c)) + Ladder(n, c) == base + TakenThenReleased(n, c)
  {
    LadderReleasesInReverse(n, c);
  }

  // The outcome of copy_process: the new task's identity, or an error.
  datatype Outcome = Created(task: Identity) | Failed(err: int)

  // Sum of the per-CPU process counts.
  function Sum(s: seq<nat>): nat
  {
    if s == [] then 0 else Sum(s[..|s| - 1]) + s[|s| - 1]
  }

  // Adding one to a CPU's count adds one to the total.
  lemma {:induction false} SumIncrement(s: seq<nat>, i: nat)
    requires i < |s|
    ensures Sum(s[i := s[i] + 1]) == Sum(s) + 1
    decreases |s|
  {
    var t := s[i := s[i] + 1];
    if i < |s| - 1 {
      assert t[..|t| - 1] == s[..|s| - 1][i := s[i] + 1];
      SumIncrement(s[..|s| - 1], i);
    } else {
      assert t[..|t| - 1] == s[..|s| - 1];
    }
  }

  // The process-wide counters fork.c keeps, and the trace of resources a
  // copy_process call takes and releases.
  class Forker {
    var nrThreads: nat
    const maxThreads: nat
    var totalForks: nat
    const processCounts: array<nat>
    var log: seq<Event>

    constructor (maxThreads: nat, cpus: nat)
      ensures this.maxThreads == maxThreads && nrThreads == 0 && totalForks == 0 && log == []
      ensures processCounts.Length == cpus && fresh(processCounts)
      ensures forall i :: 0 <= i < cpus ==> processCounts[i] == 0
    {
      this.maxThreads := maxThreads;
      nrThreads := 0;
      totalForks := 0;
      processCounts := new nat[cpus](_ => 0);
      log := [];
    }

    // nr_processes: the sum of the per-CPU counts.
    method NrProcesses() returns (total: nat)
      ensures total == Sum(processCounts[..])
    {
      total := 0;
      var cpu := 0;
      while cpu < processCounts.Length
        invariant cpu <= processCounts.Length
        invariant total == Sum(processCounts[..cpu])
      {
        assert processCounts[..cpu + 1][..cpu] == processCounts[..cpu];
        total := total + processCounts[cpu];
        cpu := cpu + 1;
      }
      assert processCounts[..cpu] == processCounts[..];
    }

    // The fall-through from label n of the ladder to fork_out.
    method Unwind(n: nat, c: Cond)
      requires n <= |ORDER|
      modifies this`log
      ensures log == old(log) + Ladder(n, c)
    {
      var i: nat := n;
      while i > 0
        invariant i <= n
        invariant log + Ladder(i, c) == old(log) + Ladder(n, c)
      {
        var r := ORDER[i - 1];
        LadderUnfold(log, i, c);
        if Held(r, c) {
          log := log + [Released(r)];
        }
        i := i - 1;
      }
      assert log + [] == log;
    }

    // Whether step k fails, given the answers of the calls it makes.
    function StepFails(k: nat, c: Cond, answers: nat -> int): bool
      reads this
    {
      if k == MAX_THREADS_STEP then nrThreads >= maxThreads
      else if k == ALLOC_PID_STEP && c.idle then false
      else answers(k) < 0
    }

    // A setup step that succeeds: it takes the next resource of ORDER if
    // it takes one at all and the call really needs it.
    method TakeStep(k: nat, n: nat, c: Cond, ghost base: seq<Event>) returns (n': nat)
      requires k < |STEPS| && LabelsMatch(k, n) && log == base + Takes(HeldUpTo(n, c))
      modifies this`log
      ensures LabelsMatch(k + 1, n') && n' <= |ORDER|
      ensures log == base + Takes(HeldUpTo(n', c))
    {
      n' := n;
      LabelNext(k, n);
      if STEPS[k].takes {
        var r := ORDER[n];
        TakeNext(base, n, c);
        if Held(r, c) {
          log := log + [Took(r)];
        }
        n' := n + 1;
      }
    }

    // A setup step that fails: the jump to its label releases, newest
    // first, everything taken so far.
    method FailStep(k: nat, n: nat, c: Cond, ghost base: seq<Event>)
      requires k < |STEPS| && LabelsMatch(k, n) && log == base + Takes(HeldUpTo(n, c))
      modifies this`log
      ensures n <= |ORDER| && log == base + TakenThenReleased(n, c)
    {
      LabelAt(k, n);
      Unwind(n, c);
      LadderTrace(base, n, c);
    }

    // The commit of copy_process under tasklist_lock: a task with a real
    // pid is counted in nr_threads, a new group leader also in this CPU's
    // process count, and every fork in total_forks.
    method Commit(p: Identity, cpu: nat)
      requires cpu < processCounts.Length
      modifies this`nrThreads, this`totalForks, processCounts
      ensures nrThreads == old(nrThreads) + (if p.pid != 0 then 1 else 0)
      ensures totalForks == old(totalForks) + 1
      ensures Sum(processCounts[..]) == old(Sum(processCounts[..])) + (if p.pid != 0 && GroupLeader(p) then 1 else 0)
    {
      if p.pid != 0 {
        if GroupLeader(p) {
          SumIncrement(processCounts[..], cpu);
          processCounts[cpu] := processCounts[cpu] + 1;
          assert processCounts[..] == old(processCounts[..])[cpu := old(processCounts[cpu]) + 1];
        }
        nrThreads := nrThreads + 1;
      }
      totalForks := totalForks + 1;
    }

    // The setup steps of copy_process, from dup_task_struct to alloc_pid,
    // each either taking its resource or jumping into the ladder. The
    // answer is 0 when every step succeeds, else the failing step's error.
    method RunSteps(c: Cond, answers: nat -> int) returns (err: int)
      modifies this`log
      ensures err <= 0
      ensures err < 0 ==> exists n: nat :: n <= |ORDER| && log == old(log) + TakenThenReleased(n, c)
      ensures err == 0 ==> nrThreads < maxThreads && log == old(log) + Takes(HeldUpTo(|ORDER|, c))
    {
      var k, n := 0, 0;
      err := 0;
      LabelsStart(k, n);
      while k < |STEPS|
        invariant k <= |STEPS| && LabelsMatch(k, n) && err == 0
        invariant log == old(log) + Takes(HeldUpTo(n, c))
        invariant k > MAX_THREADS_STEP ==> nrThreads < maxThreads
      {
        n, err := RunStep(k, n, c, answers, old(log));
        if err != 0 {
          return;
        }
        k := k + 1;
      }
      LabelsEnd(n);
    }

    // Step k of the setup: it fails, and the ladder runs from its label,
    // or it succeeds and the walk goes on to step k + 1.
    method RunStep(k: nat, n: nat, c: Cond, answers: nat -> int, ghost base: seq<Event>) returns (n': nat, err: int)
      requires k < |STEPS| && LabelsMatch(k, n) && log == base + Takes(HeldUpTo(n, c))
      modifies this`log
      ensures err <= 0
      ensures err < 0 ==> n <= |ORDER| && log == base + TakenThenReleased(n, c)
      ensures err == 0 ==> !StepFails(k, c, answers) && LabelsMatch(k + 1, n') && log == base + Takes(HeldUpTo(n', c))
    {
      if StepFails(k, c, answers) {
        StepErrorNegative(k, answers);
        FailStep(k, n, c, base);
        return n, StepError(k, answers);
      }
      n' := TakeStep(k, n, c, base);
      err := 0;
    }

    // copy_process, from the flag checks to the commit. answers(k) is
    // what step k's call returns (negative for failure), pid the number
    // alloc_pid hands out (the idle task keeps pid 0), cpu the CPU it runs
    // on. On failure every resource taken is released, newest first, and
    // no counter moves; on success the new task is counted.
    method CopyProcess(f: Flags, parentUnkillable: bool, pidNsDiffers: bool, hasMm: bool, hasIo: bool,
                       idle: bool, answers: nat -> int, pid: nat, cur: Identity, leaderExitSignal: int,
                       cpu: nat) returns (r: Outcome)
      requires cpu < processCounts.Length
      modifies this`log, this`nrThreads, this`totalForks, processCounts
      ensures CheckCloneFlags(f, parentUnkillable, pidNsDiffers) != 0 ==>
                r == Failed(-EINVAL) && log == old(log)
      ensures r.Failed? ==>
                r.err < 0 && nrThreads == old(nrThreads) && totalForks == old(totalForks) &&
                unchanged(processCounts)
      ensures r.Failed? ==>
                exists n: nat :: n <= |ORDER| && log == old(log) + TakenThenReleased(n, CondOf(f, hasMm, hasIo, idle))
      ensures r.Created? ==>
                old(nrThreads) < maxThreads && totalForks == old(totalForks) + 1 &&
                log == old(log) + Takes(HeldUpTo(|ORDER|, CondOf(f, hasMm, hasIo, idle))) &&
                r.task == AssignIdentity(f, if idle then 0 else pid, cur, leaderExitSignal) &&
                nrThreads == old(nrThreads) + (if r.task.pid != 0 then 1 else 0)
      ensures r.Created? ==>
                Sum(processCounts[..]) ==
                old(Sum(processCounts[..])) + (if r.task.pid != 0 && GroupLeader(r.task) then 1 else 0)
    {
      var e := CheckCloneFlags(f, parentUnkillable, pidNsDiffers);
      if e != 0 {
        CloneFlagsChecked(f, parentUnkillable, pidNsDiffers);
        assert log == old(log) + TakenThenReleased(0, CondOf(f, hasMm, hasIo, idle));
        return Failed(e);
      }
      var c := CondOf(f, hasMm, hasIo, idle);
      var err := RunSteps(c, answers);
      if err != 0 {
        return Failed(err);
      }
      var p := AssignIdentity(f, if idle then 0 else pid, cur, leaderExitSignal);
      Commit(p, cpu);
      r := Created(p);
    }
  }

  lemma TakesSnoc(h: seq<Res>, x: Res, held: bool)
    ensures Takes(h + (if held then [x] else [])) == Takes(h) + (if held then [Took(x)] else [])
  {
    if held {
      var h1 := h + [x];
      assert h1[..|h1| - 1] == h;
    } else {
      assert h + [] == h;
    }
  }
}
