/** `RepositoryLock` of src/sol_claude_dispatcher/locks.py as the object it is: a
    `_fd` field over a kernel, and the retry loop of a timed acquire. */
module RepositoryLocks {
  import opened Common
  import opened Locks
  import opened LockSafety

  /** Kernel tables a program can be started on: consistent, every descriptor open,
      every lock on a named file. */
  ghost predicate KernelOk(k: Kernel) {
    TablesOk(k) && (forall f :: f in k.fds ==> k.fds[f] in k.files) && forall n :: n in k.holder ==> n in k.names.Values
  }

  /** The kernel side of the steps OpenLock and Take of one instance. */
  predicate CanTake(k: Kernel, path: LockPath, fd: Fd, ofd: Ofd, inode: Inode) {
    var k' := OpenFile(k, path, fd, ofd, inode);
    CanOpen(k, path, fd, ofd, inode) && Locks.Valid(k', fd) && !Contended(k', fd)
  }

  function Taking(k: Kernel, path: LockPath, fd: Fd, ofd: Ofd, inode: Inode): Kernel
    requires CanTake(k, path, fd, ofd, inode)
  {
    FlockExclusive(OpenFile(k, path, fd, ofd, inode), fd)
  }

  class Machine {
    var kernel: Kernel

    constructor (kernel: Kernel)
      ensures this.kernel == kernel
    {
      this.kernel := kernel;
    }
  }

  class RepositoryLock {
    const process: nat
    const path: LockPath
    const machine: Machine
    var fd: Option<Fd>

    ghost predicate Valid()
      reads this, machine
    {
      && KernelOk(machine.kernel)
      && (fd.Some? ==> fd.value.process == process)
      && (fd.Some? ==> HoldsLock(machine.kernel, Instance(process, path, Holding(fd.value))))
    }

    /** The identity is resolved here, once, through the links as they are. */
    constructor (process: nat, root: Path, dir: Path, links: map<Path, Path>, machine: Machine)
      requires KernelOk(machine.kernel)
      ensures Valid() && fd == None && this.machine == machine && this.process == process
      ensures forall r, d :: LeadsTo(links, root, r) && LeadsTo(links, dir, d) ==> path == LockPath(d, Sha256(r))
      ensures path == LockPath(Canonical(links, dir), Sha256(Canonical(links, root)))
    {
      this.process, this.machine := process, machine;
      this.path := LockPath(Canonical(links, dir), Sha256(Canonical(links, root)));
      fd := None;
    }

    /** `acquire()`, not blocking; the numbers are those the kernel picks, and `fails`
        is a flock error other than contention. Either way to fail is reported as busy,
        and leaves at most the name of the lock file behind. */
    method Acquire(number: nat, ofd: Ofd, inode: Inode, fails: bool) returns (busy: bool)
      requires Valid()
      requires fd.None? ==> CanOpen(machine.kernel, path, Fd(process, number), ofd, inode)
      modifies this`fd, machine`kernel
      ensures Valid()
      ensures old(fd).Some? ==> !busy && fd == old(fd) && machine.kernel == old(machine.kernel)
      ensures old(fd).None? ==> busy == (fails || Taken(old(machine.kernel), path))
      ensures busy ==> fd.None? && machine.kernel == WithName(old(machine.kernel), path, inode)
      ensures busy && Taken(old(machine.kernel), path) ==> machine.kernel == old(machine.kernel)
      ensures old(fd).None? && !busy ==>
        && fd == Some(Fd(process, number))
        && CanTake(old(machine.kernel), path, fd.value, ofd, inode)
        && machine.kernel == Taking(old(machine.kernel), path, fd.value, ofd, inode)
        && machine.kernel.fds == old(machine.kernel).fds[Fd(process, number) := ofd]
        && machine.kernel.names == WithName(old(machine.kernel), path, inode).names
        && machine.kernel.holder == old(machine.kernel).holder[machine.kernel.names[path] := ofd]
      ensures !busy ==> Taken(machine.kernel, path)
    {
      hide KernelOk, OpenFile, CloseFd, FlockExclusive, WithName, Contended, CanOpen, Taking, CanTake;
      if fd.Some? {
        HeldIsTaken(machine.kernel, process, path, fd.value);
        return false;
      }
      ghost var k := machine.kernel;
      var f := Fd(process, number);
      OpenFacts(k, path, f, ofd, inode);
      machine.kernel := OpenFile(machine.kernel, path, f, ofd, inode);
      if fails || Contended(machine.kernel, f) {
        machine.kernel := CloseFd(machine.kernel, f);
        return true;
      }
      TakingFacts(k, process, path, f, ofd, inode);
      machine.kernel := FlockExclusive(machine.kernel, f);
      fd := Some(f);
      return false;
    }

    /** `release()`; `unlocks` says whether the explicit unlock succeeds, which does not matter. */
    method Release(unlocks: bool)
      requires Valid()
      modifies this`fd, machine`kernel
      ensures Valid() && fd.None?
      ensures old(fd).None? ==> machine.kernel == old(machine.kernel)
      ensures old(fd).Some? ==>
        && machine.kernel == CloseFd(old(machine.kernel), old(fd).value)
        && !Taken(machine.kernel, path)
      ensures machine.kernel.names == old(machine.kernel).names
    {
      if fd.None? {
        return;
      }
      var f := fd.value;
      fd := None;
      ClosedOk(machine.kernel, f, path);
      if unlocks {
        machine.kernel := FlockUnlock(machine.kernel, f);
      }
      machine.kernel := CloseFd(machine.kernel, f);
    }
  }

  lemma OpenFacts(k: Kernel, path: LockPath, fd: Fd, ofd: Ofd, inode: Inode)
    requires KernelOk(k) && CanOpen(k, path, fd, ofd, inode)
    ensures
      var k' := OpenFile(k, path, fd, ofd, inode);
      && KernelOk(k') && Locks.Valid(k', fd) && path in k'.names && k'.files[k'.fds[fd]] == k'.names[path]
      && k'.names == WithName(k, path, inode).names && k'.fds == k.fds[fd := ofd] && k'.holder == k.holder
      && (Contended(k', fd) <==> Taken(k, path))
      && CloseFd(k', fd) == WithName(k, path, inode) && KernelOk(CloseFd(k', fd))
      && (Taken(k, path) ==> CloseFd(k', fd) == k)
  {
    hide TablesOk;
    OpenTouches(k, path, fd, ofd, inode);
    OpenKeepsTables(k, path, fd, ofd, inode);
    OpenClose(k, path, fd, ofd, inode);
    CloseTouches(OpenFile(k, path, fd, ofd, inode), fd);
  }

  lemma TakenOk(k: Kernel, fd: Fd)
    requires KernelOk(k) && Locks.Valid(k, fd) && !Contended(k, fd) && k.files[k.fds[fd]] in k.names.Values
    ensures KernelOk(FlockExclusive(k, fd))
  {
    FlockTouches(k, fd);
  }

  lemma HeldIsTaken(k: Kernel, process: nat, path: LockPath, fd: Fd)
    requires HoldsLock(k, Instance(process, path, Holding(fd)))
    ensures Taken(k, path)
  {
  }

  /** What taking a free lock leads to. */
  lemma TakingFacts(k: Kernel, process: nat, path: LockPath, fd: Fd, ofd: Ofd, inode: Inode)
    requires KernelOk(k) && CanOpen(k, path, fd, ofd, inode) && !Taken(k, path)
    ensures CanTake(k, path, fd, ofd, inode)
    ensures
      var t := Taking(k, path, fd, ofd, inode);
      && t == FlockExclusive(OpenFile(k, path, fd, ofd, inode), fd)
      && KernelOk(t) && HoldsLock(t, Instance(process, path, Holding(fd)))
      && t.fds == k.fds[fd := ofd] && t.names == WithName(k, path, inode).names
      && t.holder == k.holder[t.names[path] := ofd]
  {
    hide KernelOk;
    OpenFacts(k, path, fd, ofd, inode);
    TakenOk(OpenFile(k, path, fd, ofd, inode), fd);
  }

  lemma ClosedOk(k: Kernel, fd: Fd, path: LockPath)
    requires KernelOk(k) && Locks.Valid(k, fd) && path in k.names && Held(k, k.names[path], k.fds[fd])
    ensures Locks.Valid(FlockUnlock(k, fd), fd) && CloseFd(FlockUnlock(k, fd), fd) == CloseFd(k, fd)
    ensures KernelOk(CloseFd(k, fd)) && !Taken(CloseFd(k, fd), path) && CloseFd(k, fd).names == k.names
  {
    CloseKeepsOk(k, fd);
    hide KernelOk;
    assert FlockUnlock(FlockUnlock(k, fd), fd).holder == FlockUnlock(k, fd).holder;
  }

  lemma CloseKeepsOk(k: Kernel, fd: Fd)
    requires KernelOk(k) && Locks.Valid(k, fd)
    ensures KernelOk(CloseFd(k, fd))
  {
    hide TablesOk;
    CloseTouches(k, fd);
    DescriptorsKeepOpen(k, fd);
  }

  lemma DescriptorsKeepOpen(k: Kernel, fd: Fd)
    requires KernelOk(k) && Locks.Valid(k, fd)
    ensures forall f :: f in CloseFd(k, fd).fds ==> CloseFd(k, fd).fds[f] in CloseFd(k, fd).files
  {
  }

  // ---------------------------------------------------------- timed acquire

  /** The outcome of one `flock(LOCK_EX | LOCK_NB)`. */
  datatype Attempt = Granted | Refused | Broken

  /** The first k attempts were refused, each before the deadline. */
  ghost predicate StillTrying(attempt: nat -> Attempt, clock: nat -> int, deadline: int, k: nat) {
    forall j: nat :: j < k ==> attempt(j).Refused? && clock(j + 1) < deadline
  }

  lemma RefusedBefore(attempt: nat -> Attempt, clock: nat -> int, deadline: int, n: nat, k: nat)
    requires StillTrying(attempt, clock, deadline, n)
    ensures n <= k || (attempt(k).Refused? && clock(k + 1) < deadline)
  {
  }

  /** `_flock_with_timeout`: the clock is read once before the loop and once after
      every refusal; `late` is some reading at or after the deadline. */
  method FlockWithTimeout(attempt: nat -> Attempt, clock: nat -> int, timeout: int, ghost late: nat)
    returns (outcome: Attempt, k: nat)
    requires clock(late + 1) >= clock(0) + timeout
    ensures k <= late && StillTrying(attempt, clock, clock(0) + timeout, k) && outcome == attempt(k)
    ensures outcome.Refused? ==> clock(k + 1) >= clock(0) + timeout
    ensures outcome.Granted? <==>
      exists n: nat :: StillTrying(attempt, clock, clock(0) + timeout, n) && attempt(n).Granted?
  {
    var deadline := clock(0) + timeout;
    k := 0;
    while true
      invariant k <= late && StillTrying(attempt, clock, deadline, k)
      decreases late - k
    {
      outcome := attempt(k);
      if !outcome.Refused? || clock(k + 1) >= deadline {
        forall n: nat | StillTrying(attempt, clock, deadline, n)
          ensures n <= k
        {
          RefusedBefore(attempt, clock, deadline, n, k);
        }
        return;
      }
      k := k + 1;
    }
  }
}
