/** The repository lock of src/sol_claude_dispatcher/locks.py as interleaved steps
    of many instances in many processes over the kernel's tables: names to inodes,
    descriptors to open file descriptions, and the exclusive flock of each inode. */
module Locks {

  type Path = string
  type Inode = nat
  type Ofd = nat

  /** SHA-256, taken as injective. */
  datatype Digest = Sha256(of: Path)

  /** `<digest>.lock` in a locks directory, which stands for what its spelling resolves to. */
  datatype LockPath = LockPath(dir: Path, digest: Digest)

  // --------------------------------------------------------------- kernel

  datatype Fd = Fd(process: nat, number: nat)

  /** `files` are the open file descriptions; `holder` the exclusive flocks. */
  datatype Kernel = Kernel(
    names: map<LockPath, Inode>, fds: map<Fd, Ofd>, files: map<Ofd, Inode>, holder: map<Inode, Ofd>)

  predicate CanOpen(k: Kernel, path: LockPath, fd: Fd, ofd: Ofd, inode: Inode) {
    fd !in k.fds && ofd !in k.files && (path !in k.names ==> inode !in k.names.Values)
  }

  /** `os.open(path, O_CREAT | O_RDWR)`, with the numbers the kernel picks. */
  function OpenFile(k: Kernel, path: LockPath, fd: Fd, ofd: Ofd, inode: Inode): Kernel {
    var names := if path in k.names then k.names else k.names[path := inode];
    Kernel(names, k.fds[fd := ofd], k.files[ofd := names[path]], k.holder)
  }

  predicate Valid(k: Kernel, fd: Fd) {
    fd in k.fds && k.fds[fd] in k.files
  }

  /** Another description holds the lock: `LOCK_EX | LOCK_NB` would block. */
  predicate Contended(k: Kernel, fd: Fd)
    requires Valid(k, fd)
  {
    var inode := k.files[k.fds[fd]];
    inode in k.holder && k.holder[inode] != k.fds[fd]
  }

  function FlockExclusive(k: Kernel, fd: Fd): Kernel
    requires Valid(k, fd)
  {
    k.(holder := k.holder[k.files[k.fds[fd]] := k.fds[fd]])
  }

  /** Drops the lock of one description, if it has one. */
  function FlockUnlock(k: Kernel, fd: Fd): Kernel
    requires Valid(k, fd)
  {
    k.(holder := map n | n in k.holder && k.holder[n] != k.fds[fd] :: k.holder[n])
  }

  /** Closing the only descriptor of a description ends it and its lock. */
  function CloseFd(k: Kernel, fd: Fd): Kernel
    requires Valid(k, fd)
  {
    FlockUnlock(k, fd).(fds := k.fds - {fd}, files := k.files - {k.fds[fd]})
  }

  /** The descriptions a process has open. */
  function OpenBy(k: Kernel, process: nat): set<Ofd> {
    set f | f in k.fds && f.process == process :: k.fds[f]
  }

  /** The end of a process closes all its descriptors. */
  function EndProcess(k: Kernel, process: nat): Kernel {
    var gone := OpenBy(k, process);
    k.(fds := map f | f in k.fds && f.process != process :: k.fds[f],
       files := k.files - gone,
       holder := map n | n in k.holder && k.holder[n] !in gone :: k.holder[n])
  }

  // ------------------------------------------------------------- instances

  /** Where one `RepositoryLock` is. `_fd` is set exactly in `Holding`. */
  datatype Phase =
    | Idle
    | Opened(fd: Fd)
    | Failed(fd: Fd)
    | Locked(fd: Fd)
    | Holding(fd: Fd)
    | Unlocking(fd: Fd)
    | Closing(fd: Fd)
    | Dead

  datatype Instance = Instance(process: nat, path: LockPath, phase: Phase)

  datatype State = State(canonical: map<Path, Path>, instances: map<nat, Instance>, kernel: Kernel)

  /** `raw_realpath` where links lead other spellings to one path. */
  function Canonical(links: map<Path, Path>, p: Path): Path {
    if p in links then links[p] else p
  }

  function RealPath(s: State, p: Path): Path {
    Canonical(s.canonical, p)
  }

  predicate HasFd(p: Phase) {
    !p.Idle? && !p.Dead?
  }

  /** Between a successful flock and the start of the unlock. */
  predicate InPossession(p: Phase) {
    p.Locked? || p.Holding? || p.Unlocking?
  }

  // ----------------------------------------------------------------- steps

  datatype Step =
    | Construct(i: nat, process: nat, root: Path, dir: Path)
    | OpenLock(i: nat, number: nat, ofd: Ofd, inode: Inode)
    | Take(i: nat)
    | WouldBlock(i: nat)
    | OtherError(i: nat)
    | CloseFailed(i: nat)
    | SetFd(i: nat)
    | ClearFd(i: nat)
    | Unlock(i: nat, succeeds: bool)
    | Close(i: nat)
    | Crash(process: nat)
    | Relink(canonical: map<Path, Path>)

  predicate At(s: State, i: nat) {
    i in s.instances && (HasFd(s.instances[i].phase) ==> Valid(s.kernel, s.instances[i].phase.fd))
  }

  predicate Enabled(s: State, a: Step) {
    match a
    case Construct(i, _, _, _) => i !in s.instances
    case OpenLock(i, number, ofd, inode) =>
      At(s, i) && s.instances[i].phase.Idle?
      && CanOpen(s.kernel, s.instances[i].path, Fd(s.instances[i].process, number), ofd, inode)
    case Take(i) => At(s, i) && s.instances[i].phase.Opened? && !Contended(s.kernel, s.instances[i].phase.fd)
    case WouldBlock(i) => At(s, i) && s.instances[i].phase.Opened? && Contended(s.kernel, s.instances[i].phase.fd)
    case OtherError(i) => At(s, i) && s.instances[i].phase.Opened?
    case CloseFailed(i) => At(s, i) && s.instances[i].phase.Failed?
    case SetFd(i) => At(s, i) && s.instances[i].phase.Locked?
    case ClearFd(i) => At(s, i) && s.instances[i].phase.Holding?
    case Unlock(i, _) => At(s, i) && s.instances[i].phase.Unlocking?
    case Close(i) => At(s, i) && s.instances[i].phase.Closing?
    case Crash(_) => true
    case Relink(_) => true
  }

  function Move(s: State, i: nat, phase: Phase, k: Kernel): State
    requires i in s.instances
  {
    s.(instances := s.instances[i := s.instances[i].(phase := phase)], kernel := k)
  }

  function Do(s: State, a: Step): State
    requires Enabled(s, a)
  {
    match a
    case Construct(i, process, root, dir) =>
      s.(instances := s.instances[i := Instance(process, LockPath(RealPath(s, dir), Sha256(RealPath(s, root))), Idle)])
    case OpenLock(i, number, ofd, inode) =>
      var fd := Fd(s.instances[i].process, number);
      Move(s, i, Opened(fd), OpenFile(s.kernel, s.instances[i].path, fd, ofd, inode))
    case Take(i) =>
      var fd := s.instances[i].phase.fd;
      Move(s, i, Locked(fd), FlockExclusive(s.kernel, fd))
    case WouldBlock(i) => Move(s, i, Failed(s.instances[i].phase.fd), s.kernel)
    case OtherError(i) => Move(s, i, Failed(s.instances[i].phase.fd), s.kernel)
    case CloseFailed(i) => Move(s, i, Idle, CloseFd(s.kernel, s.instances[i].phase.fd))
    case SetFd(i) => Move(s, i, Holding(s.instances[i].phase.fd), s.kernel)
    case ClearFd(i) => Move(s, i, Unlocking(s.instances[i].phase.fd), s.kernel)
    case Unlock(i, succeeds) =>
      var fd := s.instances[i].phase.fd;
      Move(s, i, Closing(fd), if succeeds then FlockUnlock(s.kernel, fd) else s.kernel)
    case Close(i) => Move(s, i, Idle, CloseFd(s.kernel, s.instances[i].phase.fd))
    case Crash(process) =>
      s.(instances := map i | i in s.instances ::
           if s.instances[i].process == process then s.instances[i].(phase := Dead) else s.instances[i],
         kernel := EndProcess(s.kernel, process))
    case Relink(canonical) => s.(canonical := canonical)
  }

  // ------------------------------------------------------------- invariant

  predicate Held(k: Kernel, inode: Inode, ofd: Ofd) {
    inode in k.holder && k.holder[inode] == ofd
  }

  /** The descriptor of an instance names a description of its own lock file; in
      possession the lock is that description's; before, it holds no lock at all. */
  ghost predicate InstanceOk(k: Kernel, x: Instance) {
    HasFd(x.phase) ==>
      var fd := x.phase.fd;
      && fd.process == x.process
      && Valid(k, fd)
      && x.path in k.names
      && k.files[k.fds[fd]] == k.names[x.path]
      && (InPossession(x.phase) ==> Held(k, k.names[x.path], k.fds[fd]))
      && (x.phase.Opened? || x.phase.Failed? ==> forall n: nat :: !Held(k, n, k.fds[fd]))
  }

  ghost predicate InstancesOk(s: State) {
    forall i :: i in s.instances ==> InstanceOk(s.kernel, s.instances[i])
  }

  /** No two instances share a descriptor. */
  ghost predicate Unshared(s: State) {
    forall i, j :: i in s.instances && j in s.instances && i != j
      && HasFd(s.instances[i].phase) && HasFd(s.instances[j].phase)
      ==> s.instances[i].phase.fd != s.instances[j].phase.fd
  }

  predicate Owns(s: State, i: nat, f: Fd) {
    i in s.instances && HasFd(s.instances[i].phase) && s.instances[i].phase.fd == f
  }

  /** Nothing is leaked: every open descriptor belongs to an instance that will close it. */
  ghost predicate NoLeak(s: State) {
    forall f :: f in s.kernel.fds ==> exists i :: Owns(s, i, f)
  }

  ghost predicate TablesOk(k: Kernel) {
    && (forall f, g :: f in k.fds && g in k.fds && k.fds[f] == k.fds[g] ==> f == g)
    && (forall n :: n in k.holder ==> k.holder[n] in k.files && k.files[k.holder[n]] == n)
    && (forall o :: o in k.files ==> exists f :: f in k.fds && k.fds[f] == o)
    && (forall p, q :: p in k.names && q in k.names && k.names[p] == k.names[q] ==> p == q)
  }

  ghost predicate Inv(s: State) {
    InstancesOk(s) && Unshared(s) && NoLeak(s) && TablesOk(s.kernel)
  }

  predicate Init(s: State) {
    s.instances == map[] && s.kernel == Kernel(map[], map[], map[], map[])
  }

  // ----------------------------------------------- one descriptor at a time

  /** Between two kernel states only descriptor `fd`, of description `mine`, and its lock change. */
  ghost predicate OnlyTouches(k: Kernel, k': Kernel, fd: Fd, mine: Ofd) {
    && (forall f :: f in k.fds && f != fd ==> f in k'.fds && k'.fds[f] == k.fds[f] && k.fds[f] != mine)
    && (forall f :: f in k'.fds && f != fd ==> f in k.fds)
    && (forall o :: o in k.files && o != mine ==> o in k'.files && k'.files[o] == k.files[o])
    && (forall p :: p in k.names ==> p in k'.names && k'.names[p] == k.names[p])
    && (forall n: nat, o: nat :: o != mine ==> (Held(k, n, o) <==> Held(k', n, o)))
  }

  lemma OthersUndisturbed(k: Kernel, k': Kernel, fd: Fd, mine: Ofd, x: Instance)
    requires OnlyTouches(k, k', fd, mine) && InstanceOk(k, x)
    requires HasFd(x.phase) ==> x.phase.fd != fd
    ensures InstanceOk(k', x)
  {
    hide Held;
  }

  /** Moving one instance keeps the invariant when only its own descriptor is touched. */
  lemma MoveKeeps(s: State, i: nat, phase: Phase, k': Kernel, fd: Fd, mine: Ofd)
    requires Inv(s) && i in s.instances
    requires OnlyTouches(s.kernel, k', fd, mine) && TablesOk(k')
    requires if HasFd(s.instances[i].phase) then s.instances[i].phase.fd == fd else fd !in s.kernel.fds
    requires if HasFd(phase) then phase.fd == fd else fd !in k'.fds
    requires InstanceOk(k', s.instances[i].(phase := phase))
    ensures Inv(Move(s, i, phase, k'))
  {
    hide OnlyTouches, TablesOk, InstanceOk;
    MoveKeepsInstances(s, i, phase, k', fd, mine);
    MoveKeepsOwners(s, i, phase, k', fd, mine);
  }

  lemma MoveKeepsInstances(s: State, i: nat, phase: Phase, k': Kernel, fd: Fd, mine: Ofd)
    requires Inv(s) && i in s.instances
    requires OnlyTouches(s.kernel, k', fd, mine)
    requires if HasFd(s.instances[i].phase) then s.instances[i].phase.fd == fd else fd !in s.kernel.fds
    requires if HasFd(phase) then phase.fd == fd else fd !in k'.fds
    requires InstanceOk(k', s.instances[i].(phase := phase))
    ensures InstancesOk(Move(s, i, phase, k')) && Unshared(Move(s, i, phase, k'))
  {
    hide OnlyTouches, TablesOk, NoLeak;
    forall j | j in s.instances && j != i
      ensures HasFd(s.instances[j].phase) ==> s.instances[j].phase.fd != fd
      ensures InstanceOk(k', s.instances[j])
    {
      assert InstanceOk(s.kernel, s.instances[j]);
      OthersUndisturbed(s.kernel, k', fd, mine, s.instances[j]);
    }
  }

  lemma MoveKeepsOwners(s: State, i: nat, phase: Phase, k': Kernel, fd: Fd, mine: Ofd)
    requires NoLeak(s) && i in s.instances
    requires OnlyTouches(s.kernel, k', fd, mine)
    requires HasFd(s.instances[i].phase) ==> s.instances[i].phase.fd == fd
    requires if HasFd(phase) then phase.fd == fd else fd !in k'.fds
    ensures NoLeak(Move(s, i, phase, k'))
  {
    hide Held;
    var t := Move(s, i, phase, k');
    forall f | f in k'.fds
      ensures exists j :: Owns(t, j, f)
    {
      if f == fd {
        assert Owns(t, i, f);
      } else {
        var j :| Owns(s, j, f);
        assert Owns(t, j, f);
      }
    }
  }

  lemma OpenTouches(k: Kernel, path: LockPath, fd: Fd, ofd: Ofd, inode: Inode)
    requires TablesOk(k) && CanOpen(k, path, fd, ofd, inode)
    requires forall f :: f in k.fds ==> k.fds[f] in k.files
    ensures var k' := OpenFile(k, path, fd, ofd, inode);
            && OnlyTouches(k, k', fd, ofd)
            && Valid(k', fd) && path in k'.names && k'.fds[fd] == ofd && k'.files[ofd] == k'.names[path]
            && forall n: nat :: !Held(k', n, ofd)
  {
  }

  lemma OpenKeepsTables(k: Kernel, path: LockPath, fd: Fd, ofd: Ofd, inode: Inode)
    requires TablesOk(k) && CanOpen(k, path, fd, ofd, inode)
    requires forall f :: f in k.fds ==> k.fds[f] in k.files
    ensures TablesOk(OpenFile(k, path, fd, ofd, inode))
  {
    var k' := OpenFile(k, path, fd, ofd, inode);
    forall o | o in k'.files
      ensures exists f :: f in k'.fds && k'.fds[f] == o
    {
      if o == ofd {
        assert k'.fds[fd] == o;
      } else {
        var f :| f in k.fds && k.fds[f] == o;
        assert k'.fds[f] == o;
      }
    }
  }

  lemma SameTouches(k: Kernel, fd: Fd)
    requires TablesOk(k) && Valid(k, fd)
    ensures OnlyTouches(k, k, fd, k.fds[fd])
  {
  }

  lemma FlockTouches(k: Kernel, fd: Fd)
    requires TablesOk(k) && Valid(k, fd) && !Contended(k, fd)
    ensures OnlyTouches(k, FlockExclusive(k, fd), fd, k.fds[fd]) && TablesOk(FlockExclusive(k, fd))
  {
  }

  lemma UnlockTouches(k: Kernel, fd: Fd)
    requires TablesOk(k) && Valid(k, fd)
    ensures OnlyTouches(k, FlockUnlock(k, fd), fd, k.fds[fd]) && TablesOk(FlockUnlock(k, fd))
  {
  }

  lemma CloseTouches(k: Kernel, fd: Fd)
    requires TablesOk(k) && Valid(k, fd)
    ensures OnlyTouches(k, CloseFd(k, fd), fd, k.fds[fd]) && TablesOk(CloseFd(k, fd))
  {
    var k' := CloseFd(k, fd);
    forall o | o in k'.files
      ensures exists f :: f in k'.fds && k'.fds[f] == o
    {
      var f :| f in k.fds && k.fds[f] == o;
      assert f in k'.fds && k'.fds[f] == o;
    }
  }

  // ----------------------------------------------------- every step keeps it

  lemma ConstructKeeps(s: State, a: Step)
    requires Inv(s) && Enabled(s, a) && (a.Construct? || a.Relink?)
    ensures Inv(Do(s, a))
  {
    hide TablesOk, InstanceOk;
    var t := Do(s, a);
    assert a.Construct? ==> InstanceOk(t.kernel, t.instances[a.i]) by {
      NoFdOk(t.kernel, if a.Construct? then t.instances[a.i] else Instance(0, LockPath("", Sha256("")), Idle));
    }
    forall f | f in t.kernel.fds
      ensures exists j :: Owns(t, j, f)
    {
      var j :| Owns(s, j, f);
      assert Owns(t, j, f);
    }
  }

  lemma NoFdOk(k: Kernel, x: Instance)
    requires !HasFd(x.phase)
    ensures InstanceOk(k, x)
  {
  }

  lemma DescriptorsValid(s: State)
    requires Inv(s)
    ensures forall f :: f in s.kernel.fds ==> Valid(s.kernel, f)
  {
    hide TablesOk;
    forall f | f in s.kernel.fds
      ensures Valid(s.kernel, f)
    {
      var j :| Owns(s, j, f);
      assert InstanceOk(s.kernel, s.instances[j]);
    }
  }

  lemma InvAt(s: State, i: nat)
    requires Inv(s) && i in s.instances
    ensures TablesOk(s.kernel) && InstanceOk(s.kernel, s.instances[i])
  {
  }

  lemma OpenKeeps(s: State, a: Step)
    requires Inv(s) && Enabled(s, a) && a.OpenLock?
    ensures Inv(Do(s, a))
  {
    hide TablesOk, Inv, OnlyTouches, OpenFile, Move, Held;
    DescriptorsValid(s);
    var x := s.instances[a.i];
    var fd := Fd(x.process, a.number);
    InvAt(s, a.i);
    OpenTouches(s.kernel, x.path, fd, a.ofd, a.inode);
    OpenKeepsTables(s.kernel, x.path, fd, a.ofd, a.inode);
    MoveKeeps(s, a.i, Opened(fd), OpenFile(s.kernel, x.path, fd, a.ofd, a.inode), fd, a.ofd);
  }

  lemma TakeKeeps(s: State, i: nat)
    requires Inv(s) && Enabled(s, Take(i))
    ensures Inv(Do(s, Take(i)))
  {
    hide TablesOk, Inv, OnlyTouches, Move;
    InvAt(s, i);
    var fd := s.instances[i].phase.fd;
    FlockTouches(s.kernel, fd);
    MoveKeeps(s, i, Locked(fd), FlockExclusive(s.kernel, fd), fd, s.kernel.fds[fd]);
  }

  /** Steps that only move an instance on, with the kernel as it was. */
  lemma PhaseKeeps(s: State, i: nat, phase: Phase)
    requires Inv(s) && At(s, i) && HasFd(s.instances[i].phase) && HasFd(phase)
    requires phase.fd == s.instances[i].phase.fd
    requires InPossession(phase) ==> InPossession(s.instances[i].phase)
    requires phase.Opened? || phase.Failed? ==> s.instances[i].phase.Opened?
    ensures Inv(Move(s, i, phase, s.kernel))
  {
    hide TablesOk, Inv, OnlyTouches, Move;
    InvAt(s, i);
    var fd := s.instances[i].phase.fd;
    SameTouches(s.kernel, fd);
    MoveKeeps(s, i, phase, s.kernel, fd, s.kernel.fds[fd]);
  }

  lemma UnlockKeeps(s: State, i: nat)
    requires Inv(s) && Enabled(s, Unlock(i, true))
    ensures Inv(Do(s, Unlock(i, true)))
  {
    hide TablesOk, Inv, OnlyTouches, Move;
    InvAt(s, i);
    var fd := s.instances[i].phase.fd;
    UnlockTouches(s.kernel, fd);
    MoveKeeps(s, i, Closing(fd), FlockUnlock(s.kernel, fd), fd, s.kernel.fds[fd]);
  }

  lemma CloseKeeps(s: State, i: nat)
    requires Inv(s) && At(s, i) && HasFd(s.instances[i].phase)
    ensures Inv(Move(s, i, Idle, CloseFd(s.kernel, s.instances[i].phase.fd)))
  {
    hide TablesOk, Inv, OnlyTouches, Move;
    InvAt(s, i);
    var fd := s.instances[i].phase.fd;
    CloseTouches(s.kernel, fd);
    MoveKeeps(s, i, Idle, CloseFd(s.kernel, fd), fd, s.kernel.fds[fd]);
  }

  lemma EndKeepsTables(k: Kernel, process: nat)
    requires TablesOk(k)
    ensures TablesOk(EndProcess(k, process))
  {
    var k' := EndProcess(k, process);
    forall o | o in k'.files
      ensures exists f :: f in k'.fds && k'.fds[f] == o
    {
      var f :| f in k.fds && k.fds[f] == o;
      assert f in k'.fds && k'.fds[f] == o;
    }
  }

  lemma EndSparesOthers(k: Kernel, process: nat, x: Instance)
    requires TablesOk(k) && InstanceOk(k, x) && x.process != process
    ensures InstanceOk(EndProcess(k, process), x)
  {
    if HasFd(x.phase) {
      var ofd := k.fds[x.phase.fd];
      assert ofd !in OpenBy(k, process);
      var k' := EndProcess(k, process);
      assert forall n: nat :: Held(k', n, ofd) <==> Held(k, n, ofd);
    }
  }

  lemma CrashKeeps(s: State, process: nat)
    requires Inv(s)
    ensures Inv(Do(s, Crash(process)))
  {
    hide TablesOk, InstanceOk;
    EndKeepsTables(s.kernel, process);
    var t := Do(s, Crash(process));
    forall i | i in t.instances
      ensures InstanceOk(t.kernel, t.instances[i])
      ensures HasFd(t.instances[i].phase) ==> t.instances[i] == s.instances[i]
    {
      if s.instances[i].process == process {
        NoFdOk(t.kernel, t.instances[i]);
      } else {
        EndSparesOthers(s.kernel, process, s.instances[i]);
      }
    }
    CrashOwners(s, process);
  }

  lemma CrashOwners(s: State, process: nat)
    requires Inv(s)
    ensures NoLeak(Do(s, Crash(process)))
  {
    hide TablesOk;
    var t := Do(s, Crash(process));
    forall f | f in t.kernel.fds
      ensures exists j :: Owns(t, j, f)
    {
      var j :| Owns(s, j, f);
      assert InstanceOk(s.kernel, s.instances[j]);
      assert Owns(t, j, f);
    }
  }

  lemma StepKeeps(s: State, a: Step)
    requires Inv(s) && Enabled(s, a)
    ensures Inv(Do(s, a))
  {
    hide Inv, Move, EndProcess, CloseFd, FlockUnlock, FlockExclusive, OpenFile;
    match a
    case Construct(_, _, _, _) => ConstructKeeps(s, a);
    case Relink(_) => ConstructKeeps(s, a);
    case OpenLock(_, _, _, _) => OpenKeeps(s, a);
    case Take(i) => TakeKeeps(s, i);
    case WouldBlock(i) => PhaseKeeps(s, i, Failed(s.instances[i].phase.fd));
    case OtherError(i) => PhaseKeeps(s, i, Failed(s.instances[i].phase.fd));
    case CloseFailed(i) => CloseKeeps(s, i);
    case SetFd(i) => PhaseKeeps(s, i, Holding(s.instances[i].phase.fd));
    case ClearFd(i) => PhaseKeeps(s, i, Unlocking(s.instances[i].phase.fd));
    case Unlock(i, succeeds) =>
      if succeeds {
        UnlockKeeps(s, i);
      } else {
        PhaseKeeps(s, i, Closing(s.instances[i].phase.fd));
      }
    case Close(i) => CloseKeeps(s, i);
    case Crash(process) => CrashKeeps(s, process);
  }

  // ------------------------------------------------------------------ runs

  /** The steps can be done one after the other. */
  predicate Possible(s: State, steps: seq<Step>)
    decreases |steps|
  {
    steps == [] || (Enabled(s, steps[0]) && Possible(Do(s, steps[0]), steps[1..]))
  }

  function After(s: State, steps: seq<Step>): State
    requires Possible(s, steps)
    decreases |steps|
  {
    if steps == [] then s else After(Do(s, steps[0]), steps[1..])
  }

  lemma {:induction false} RunKeeps(s: State, steps: seq<Step>)
    requires Inv(s) && Possible(s, steps)
    ensures Inv(After(s, steps))
    decreases |steps|
  {
    hide Inv, Do, Enabled;
    if steps != [] {
      StepKeeps(s, steps[0]);
      RunKeeps(Do(s, steps[0]), steps[1..]);
    }
  }

  lemma EveryRunKeeps(s: State, steps: seq<Step>)
    requires Init(s) && Possible(s, steps)
    ensures Inv(After(s, steps))
  {
    RunKeeps(s, steps);
  }
}
