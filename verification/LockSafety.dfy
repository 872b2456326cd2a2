/** What the repository lock guarantees on every run, and what it rests on. */
module LockSafety {
  import opened Locks

  // ---------------------------------------------------------------- safety

  /** The descriptor of an instance names the description with the lock of its lock file. */
  predicate HoldsLock(k: Kernel, x: Instance)
    requires HasFd(x.phase)
  {
    Valid(k, x.phase.fd) && x.path in k.names && Held(k, k.names[x.path], k.fds[x.phase.fd])
  }

  /** In every interleaving, crashes included: two instances of one lock path are
      never both in possession, and an instance whose `_fd` is set names a
      description that holds the exclusive lock of its lock file. */
  lemma MutualExclusion(init: State, steps: seq<Step>, i: nat, j: nat)
    requires Init(init) && Possible(init, steps)
    requires i in After(init, steps).instances && j in After(init, steps).instances
    ensures
      var s := After(init, steps);
      var x, y := s.instances[i], s.instances[j];
      && (InPossession(x.phase) && InPossession(y.phase) && x.path == y.path ==> i == j)
      && (x.phase.Holding? ==> HoldsLock(s.kernel, x))
  {
    hide Init, Possible, After, TablesOk;
    EveryRunKeeps(init, steps);
    OneHolder(After(init, steps), i, j);
  }

  lemma OneHolder(s: State, i: nat, j: nat)
    requires Inv(s) && i in s.instances && j in s.instances
    ensures
      var x, y := s.instances[i], s.instances[j];
      && (InPossession(x.phase) && InPossession(y.phase) && x.path == y.path ==> i == j)
      && (x.phase.Holding? ==> HoldsLock(s.kernel, x))
  {
    InvAt(s, i);
    InvAt(s, j);
  }

  /** The open descriptors are exactly those of the instances in the middle of a
      call or holding the lock: no exit, busy or not, leaks one. */
  lemma NothingLeaks(init: State, steps: seq<Step>, f: Fd)
    requires Init(init) && Possible(init, steps)
    ensures
      var s := After(init, steps);
      f in s.kernel.fds <==> exists i :: Owns(s, i, f)
  {
    hide Init, Possible, After, TablesOk;
    EveryRunKeeps(init, steps);
    var s := After(init, steps);
    forall i | Owns(s, i, f)
      ensures f in s.kernel.fds
    {
      InvAt(s, i);
    }
  }

  // ----------------------------------------------------------- contention

  /** A refusal is never spurious: another instance of the same lock has it, or is
      about to close a description whose unlock failed. */
  lemma BusyIsReal(s: State, i: nat) returns (j: nat)
    requires Inv(s) && Enabled(s, WouldBlock(i))
    ensures j in s.instances && j != i && s.instances[j].path == s.instances[i].path
    ensures InPossession(s.instances[j].phase) || s.instances[j].phase.Closing?
  {
    InvAt(s, i);
    var ofd := s.kernel.holder[s.kernel.files[s.kernel.fds[s.instances[i].phase.fd]]];
    var f :| f in s.kernel.fds && s.kernel.fds[f] == ofd;
    j :| Owns(s, j, f);
    InvAt(s, j);
    assert Held(s.kernel, s.kernel.names[s.instances[i].path], ofd);
  }

  /** So an instance that nobody of the same lock stands against can take it. */
  lemma FreeIsTaken(s: State, i: nat)
    requires Inv(s) && i in s.instances && s.instances[i].phase.Opened?
    requires forall j :: j in s.instances && j != i && s.instances[j].path == s.instances[i].path ==>
      !InPossession(s.instances[j].phase) && !s.instances[j].phase.Closing?
    ensures Enabled(s, Take(i))
  {
    InvAt(s, i);
    if Enabled(s, WouldBlock(i)) {
      var _ := BusyIsReal(s, i);
    }
  }

  /** A crash gives back every lock of the process. */
  lemma CrashFrees(s: State, process: nat, i: nat)
    requires Inv(s) && i in s.instances && s.instances[i].phase.Opened? && s.instances[i].process != process
    requires forall j :: j in s.instances && j != i && s.instances[j].path == s.instances[i].path ==>
      s.instances[j].process == process || s.instances[j].phase.Idle? || s.instances[j].phase.Dead?
    ensures
      var t := Do(s, Crash(process));
      Inv(t) && Enabled(t, Take(i)) && forall f :: f in t.kernel.fds ==> f.process != process
  {
    hide Inv;
    CrashKeeps(s, process);
    var t := Do(s, Crash(process));
    FreeIsTaken(t, i);
  }

  // -------------------------------------------------------------- one call

  /** The kernel with at most one more name. */
  function WithName(k: Kernel, path: LockPath, inode: Inode): Kernel {
    k.(names := if path in k.names then k.names else k.names[path := inode])
  }

  /** The lock file of the path is held by some description. */
  predicate Taken(k: Kernel, path: LockPath) {
    path in k.names && k.names[path] in k.holder
  }

  /** Closing the descriptor of a fresh description takes everything but the name back,
      whatever locks it was given. */
  lemma CloseOpened(k: Kernel, t: Kernel, path: LockPath, fd: Fd, ofd: Ofd, inode: Inode)
    requires CanOpen(k, path, fd, ofd, inode)
    requires t.(holder := k.holder) == OpenFile(k, path, fd, ofd, inode)
    requires forall n :: n in t.holder && t.holder[n] != ofd <==> n in k.holder
    requires forall n :: n in k.holder ==> n in t.holder && t.holder[n] == k.holder[n]
    ensures Valid(t, fd) && CloseFd(t, fd) == WithName(k, path, inode)
  {
    assert t.fds == k.fds[fd := ofd];
    var closed := CloseFd(t, fd);
    assert closed.fds == k.fds;
    assert closed.files == k.files;
    assert closed.holder == k.holder;
  }

  lemma OpenClose(k: Kernel, path: LockPath, fd: Fd, ofd: Ofd, inode: Inode)
    requires CanOpen(k, path, fd, ofd, inode) && TablesOk(k)
    ensures
      var withFd := OpenFile(k, path, fd, ofd, inode);
      && Valid(withFd, fd) && (Contended(withFd, fd) <==> withFd.names[path] in k.holder)
      && CloseFd(withFd, fd) == WithName(k, path, inode)
  {
    hide CloseFd, WithName;
    CloseOpened(k, OpenFile(k, path, fd, ofd, inode), path, fd, ofd, inode);
  }

  lemma OpenTakeClose(k: Kernel, path: LockPath, fd: Fd, ofd: Ofd, inode: Inode)
    requires CanOpen(k, path, fd, ofd, inode) && TablesOk(k)
    requires OpenFile(k, path, fd, ofd, inode).names[path] !in k.holder
    ensures
      var taken := FlockExclusive(OpenFile(k, path, fd, ofd, inode), fd);
      && Valid(taken, fd) && CloseFd(taken, fd) == WithName(k, path, inode)
      && Valid(FlockUnlock(taken, fd), fd) && CloseFd(FlockUnlock(taken, fd), fd) == WithName(k, path, inode)
  {
    hide CloseFd, WithName;
    var taken := FlockExclusive(OpenFile(k, path, fd, ofd, inode), fd);
    CloseOpened(k, taken, path, fd, ofd, inode);
    CloseOpened(k, FlockUnlock(taken, fd), path, fd, ofd, inode);
  }

  /** Every lock is on a named lock file. */
  lemma LocksAreNamed(s: State, n: Inode)
    requires Inv(s) && n in s.kernel.holder
    ensures n in s.kernel.names.Values
  {
    var f :| f in s.kernel.fds && s.kernel.fds[f] == s.kernel.holder[n];
    var j :| Owns(s, j, f);
    InvAt(s, j);
    assert s.kernel.names[s.instances[j].path] == n;
  }

  lemma MoveMove(s: State, i: nat, p: Phase, k: Kernel, q: Phase, l: Kernel)
    requires i in s.instances
    ensures Move(Move(s, i, p, k), i, q, l) == Move(s, i, q, l)
    ensures Move(s, i, s.instances[i].phase, k) == s.(kernel := k)
  {
    assert Move(Move(s, i, p, k), i, q, l).instances == Move(s, i, q, l).instances;
    assert Move(s, i, s.instances[i].phase, k).instances == s.instances;
  }

  lemma ThreeSteps(s: State, a: Step, b: Step, c: Step)
    requires Enabled(s, a) && Enabled(Do(s, a), b) && Enabled(Do(Do(s, a), b), c)
    ensures Possible(s, [a, b, c]) && After(s, [a, b, c]) == Do(Do(Do(s, a), b), c)
  {
    hide Enabled, Do;
    assert [a, b, c][1..] == [b, c] && [b, c][1..] == [c] && [c][1..] == [];
    var s1 := Do(s, a);
    var s2 := Do(s1, b);
    assert Possible(Do(s2, c), []) && After(Do(s2, c), []) == Do(s2, c);
    assert Possible(s2, [c]) && After(s2, [c]) == Do(s2, c);
    assert Possible(s1, [b, c]) && After(s1, [b, c]) == After(s2, [c]);
  }

  /** A refused acquire leaves everything as it found it. */
  lemma BusyRestores(s: State, i: nat, number: nat, ofd: Ofd, inode: Inode)
    requires Inv(s) && Enabled(s, OpenLock(i, number, ofd, inode))
    requires Taken(s.kernel, s.instances[i].path)
    ensures
      var steps := [OpenLock(i, number, ofd, inode), WouldBlock(i), CloseFailed(i)];
      Possible(s, steps) && After(s, steps) == s
  {
    hide Inv, TablesOk, OpenFile, CloseFd, Contended;
    InvAt(s, i);
    var k, path := s.kernel, s.instances[i].path;
    var fd := Fd(s.instances[i].process, number);
    var withFd := OpenFile(k, path, fd, ofd, inode);
    OpenClose(k, path, fd, ofd, inode);
    OpenNames(k, path, fd, ofd, inode);
    var a := OpenLock(i, number, ofd, inode);
    var s1 := Do(s, a);
    var s2 := Do(s1, WouldBlock(i));
    MoveMove(s, i, Opened(fd), withFd, Failed(fd), withFd);
    MoveMove(s, i, Failed(fd), withFd, Idle, k);
    assert s2 == Move(s, i, Failed(fd), withFd);
    assert Do(s2, CloseFailed(i)) == s;
    ThreeSteps(s, a, WouldBlock(i), CloseFailed(i));
  }

  /** Any other error of the lock call leaves at most the name of the lock file behind. */
  lemma ErrorRestores(s: State, i: nat, number: nat, ofd: Ofd, inode: Inode)
    requires Inv(s) && Enabled(s, OpenLock(i, number, ofd, inode))
    ensures
      var steps := [OpenLock(i, number, ofd, inode), OtherError(i), CloseFailed(i)];
      && Possible(s, steps) && After(s, steps) == s.(kernel := WithName(s.kernel, s.instances[i].path, inode))
  {
    hide Inv, TablesOk, OpenFile, CloseFd, Contended, WithName;
    InvAt(s, i);
    var k, path := s.kernel, s.instances[i].path;
    var fd := Fd(s.instances[i].process, number);
    var withFd := OpenFile(k, path, fd, ofd, inode);
    OpenClose(k, path, fd, ofd, inode);
    var a := OpenLock(i, number, ofd, inode);
    MoveMove(s, i, Opened(fd), withFd, Failed(fd), withFd);
    MoveMove(s, i, Failed(fd), withFd, Idle, WithName(k, path, inode));
    assert Do(Do(s, a), OtherError(i)) == Move(s, i, Failed(fd), withFd);
    ThreeSteps(s, a, OtherError(i), CloseFailed(i));
  }

  lemma OpenNames(k: Kernel, path: LockPath, fd: Fd, ofd: Ofd, inode: Inode)
    ensures OpenFile(k, path, fd, ofd, inode).names == WithName(k, path, inode).names
    ensures path in k.names ==> WithName(k, path, inode) == k
  {
  }

  /** A release undoes an acquire, whether or not the explicit unlock succeeds;
      only the name of the lock file stays behind. */
  lemma ReleaseUndoesAcquire(s: State, i: nat, number: nat, ofd: Ofd, inode: Inode, succeeds: bool)
    requires Inv(s) && Enabled(s, OpenLock(i, number, ofd, inode))
    requires !Taken(s.kernel, s.instances[i].path)
    ensures
      var acquire := [OpenLock(i, number, ofd, inode), Take(i), SetFd(i)];
      var release := [ClearFd(i), Unlock(i, succeeds), Close(i)];
      && Possible(s, acquire)
      && i in After(s, acquire).instances
      && After(s, acquire).instances[i].phase == Holding(Fd(s.instances[i].process, number))
      && Possible(After(s, acquire), release)
      && After(After(s, acquire), release) == s.(kernel := WithName(s.kernel, s.instances[i].path, inode))
  {
    hide Inv, TablesOk, OpenFile, CloseFd, FlockExclusive, FlockUnlock, Contended, WithName;
    InvAt(s, i);
    var k, path := s.kernel, s.instances[i].path;
    var fd := Fd(s.instances[i].process, number);
    var withFd := OpenFile(k, path, fd, ofd, inode);
    OpenNames(k, path, fd, ofd, inode);
    FreeInode(s, path, inode);
    OpenClose(k, path, fd, ofd, inode);
    OpenTakeClose(k, path, fd, ofd, inode);
    var taken := FlockExclusive(withFd, fd);
    var a := OpenLock(i, number, ofd, inode);
    var s1 := Do(s, a);
    assert s1 == Move(s, i, Opened(fd), withFd);
    var s2 := Do(s1, Take(i));
    MoveMove(s, i, Opened(fd), withFd, Locked(fd), taken);
    assert s2 == Move(s, i, Locked(fd), taken);
    var s3 := Do(s2, SetFd(i));
    MoveMove(s, i, Locked(fd), taken, Holding(fd), taken);
    assert s3 == Move(s, i, Holding(fd), taken);
    ThreeSteps(s, a, Take(i), SetFd(i));
    ReleaseFrom(s, i, fd, taken, WithName(k, path, inode), succeeds);
  }

  lemma FreeInode(s: State, path: LockPath, inode: Inode)
    requires Inv(s) && !Taken(s.kernel, path)
    requires path !in s.kernel.names ==> inode !in s.kernel.names.Values
    ensures path in WithName(s.kernel, path, inode).names
    ensures WithName(s.kernel, path, inode).names[path] !in s.kernel.holder
  {
    hide Inv;
    if path !in s.kernel.names && inode in s.kernel.holder {
      LocksAreNamed(s, inode);
    }
  }

  lemma ReleaseFrom(s: State, i: nat, fd: Fd, taken: Kernel, freed: Kernel, succeeds: bool)
    requires i in s.instances && s.instances[i].phase.Idle? && Valid(taken, fd)
    requires CloseFd(taken, fd) == freed
    requires Valid(FlockUnlock(taken, fd), fd) && CloseFd(FlockUnlock(taken, fd), fd) == freed
    ensures
      var t := Move(s, i, Holding(fd), taken);
      var release := [ClearFd(i), Unlock(i, succeeds), Close(i)];
      Possible(t, release) && After(t, release) == s.(kernel := freed)
  {
    hide CloseFd, FlockUnlock;
    var t := Move(s, i, Holding(fd), taken);
    var t1 := Do(t, ClearFd(i));
    MoveMove(s, i, Holding(fd), taken, Unlocking(fd), taken);
    assert t1 == Move(s, i, Unlocking(fd), taken);
    var last := if succeeds then FlockUnlock(taken, fd) else taken;
    var t2 := Do(t1, Unlock(i, succeeds));
    MoveMove(s, i, Unlocking(fd), taken, Closing(fd), last);
    assert t2 == Move(s, i, Closing(fd), last);
    MoveMove(s, i, Closing(fd), last, Idle, freed);
    assert Do(t2, Close(i)) == Move(s, i, Idle, freed);
    MoveMove(s, i, Idle, freed, Idle, freed);
    ThreeSteps(t, ClearFd(i), Unlock(i, succeeds), Close(i));
  }

  // -------------------------------------------------------------- identity

  /** On every run, whatever happens before, between and after: two instances share a
      lock exactly when their spellings resolved to one root and to one locks directory,
      each at its construction; and then they are never both in possession. */
  lemma AliasesShare(init: State, before: seq<Step>, first: Step, between: seq<Step>, second: Step, after: seq<Step>)
    requires Init(init) && Possible(init, before) && first.Construct? && second.Construct?
    requires Enabled(After(init, before), first) && Possible(Do(After(init, before), first), between)
    requires Enabled(After(Do(After(init, before), first), between), second)
    requires Possible(Do(After(Do(After(init, before), first), between), second), after)
    ensures
      var s1 := After(init, before);
      var s2 := After(Do(s1, first), between);
      var t := After(Do(s2, second), after);
      var shared := && RealPath(s1, first.root) == RealPath(s2, second.root)
                    && RealPath(s1, first.dir) == RealPath(s2, second.dir);
      && first.i in t.instances && second.i in t.instances && first.i != second.i
      && (t.instances[first.i].path == t.instances[second.i].path <==> shared)
      && (shared ==> !(InPossession(t.instances[first.i].phase) && InPossession(t.instances[second.i].phase)))
  {
    hide Init, Possible, After, Inv, InPossession;
    var s1 := After(init, before);
    var s2 := After(Do(s1, first), between);
    var t := After(Do(s2, second), after);
    EveryRunKeeps(init, before);
    Constructed(s1, first);
    RunKeeps(Do(s1, first), between);
    PathSettled(Do(s1, first), between, first.i);
    Constructed(s2, second);
    RunKeeps(Do(s2, second), after);
    PathSettled(Do(s2, second), after, second.i);
    PathSettled(Do(s2, second), after, first.i);
    OneHolder(t, first.i, second.i);
  }

  /** The links lead this path to that one, which is no link itself. */
  predicate LeadsTo(links: map<Path, Path>, from: Path, to: Path) {
    to !in links && if from in links then links[from] == to else from == to
  }

  /** On every run, links leading both spellings to one root and both directories to one
      directory give one lock, never in two hands; to different ones, two locks. */
  lemma SpellingsShare(
      init: State, before: seq<Step>, first: Step, between: seq<Step>, second: Step, after: seq<Step>,
      root1: Path, root2: Path, dir1: Path, dir2: Path)
    requires Init(init) && Possible(init, before) && first.Construct? && second.Construct?
    requires Enabled(After(init, before), first) && Possible(Do(After(init, before), first), between)
    requires Enabled(After(Do(After(init, before), first), between), second)
    requires Possible(Do(After(Do(After(init, before), first), between), second), after)
    requires
      var links1 := After(init, before).canonical;
      LeadsTo(links1, first.root, root1) && LeadsTo(links1, first.dir, dir1)
    requires
      var links2 := After(Do(After(init, before), first), between).canonical;
      LeadsTo(links2, second.root, root2) && LeadsTo(links2, second.dir, dir2)
    ensures
      var t := After(Do(After(Do(After(init, before), first), between), second), after);
      && first.i in t.instances && second.i in t.instances && first.i != second.i
      && (t.instances[first.i].path == t.instances[second.i].path <==> root1 == root2 && dir1 == dir2)
      && (root1 == root2 && dir1 == dir2 ==>
            !(InPossession(t.instances[first.i].phase) && InPossession(t.instances[second.i].phase)))
  {
    hide Init, Possible, After, Enabled, Do, InPossession;
    AliasesShare(init, before, first, between, second, after);
  }

  lemma Constructed(s: State, a: Step)
    requires Inv(s) && Enabled(s, a) && a.Construct?
    ensures Inv(Do(s, a)) && a.i !in s.instances && a.i in Do(s, a).instances
    ensures Do(s, a).instances[a.i].path == LockPath(RealPath(s, a.dir), Sha256(RealPath(s, a.root)))
    ensures forall j :: j in s.instances ==> j in Do(s, a).instances && Do(s, a).instances[j] == s.instances[j]
  {
    hide Inv;
    StepKeeps(s, a);
  }

  /** The lock path is settled at construction: no later step changes it, however
      the links move. */
  lemma {:induction false} PathSettled(s: State, steps: seq<Step>, i: nat)
    requires Possible(s, steps) && i in s.instances
    ensures i in After(s, steps).instances && After(s, steps).instances[i].path == s.instances[i].path
    decreases |steps|
  {
    if steps != [] {
      PathStays(s, steps[0], i);
      PathSettled(Do(s, steps[0]), steps[1..], i);
    }
  }

  lemma PathStays(s: State, a: Step, i: nat)
    requires Enabled(s, a) && i in s.instances
    ensures i in Do(s, a).instances && Do(s, a).instances[i].path == s.instances[i].path
  {
    hide OpenFile, FlockUnlock, FlockExclusive, CloseFd, EndProcess;
  }

  /** No step takes a lock file's name away. */
  lemma NamesStay(s: State, a: Step)
    requires Enabled(s, a)
    ensures forall p :: p in s.kernel.names ==>
      p in Do(s, a).kernel.names && Do(s, a).kernel.names[p] == s.kernel.names[p]
  {
  }

  // ------------------------------------------------- what exclusion rests on

  /** The step the program never takes. */
  function Unlink(s: State, path: LockPath): State {
    s.(kernel := s.kernel.(names := s.kernel.names - {path}))
  }

  function Hold(i: nat, n: nat): seq<Step> {
    [OpenLock(i, n, n, n), Take(i), SetFd(i)]
  }

  function Start(dir: Path, other: Path): State {
    State(map[],
      map[0 := Instance(1, LockPath(dir, Sha256("/r")), Idle), 1 := Instance(2, LockPath(other, Sha256("/r")), Idle)],
      Kernel(map[], map[], map[], map[]))
  }

  /** Some run from the start leads here. */
  ghost predicate Reachable(s: State) {
    exists init: State, steps: seq<Step> :: Init(init) && Possible(init, steps) && After(init, steps) == s
  }

  lemma StartIsReachable(dir: Path, other: Path)
    ensures Reachable(Start(dir, other))
  {
    var init := State(map[], map[], Kernel(map[], map[], map[], map[]));
    var a, b := Construct(0, 1, "/r", dir), Construct(1, 2, "/r", other);
    assert [a, b][1..] == [b] && [b][1..] == [];
    assert Possible(Do(init, a), [b]);
    assert After(Do(init, a), [b]) == Do(Do(init, a), b);
    assert Do(Do(init, a), b).instances == Start(dir, other).instances;
    assert Init(init) && Possible(init, [a, b]) && After(init, [a, b]) == Start(dir, other);
  }

  /** An idle instance whose lock file nobody holds can be brought to hold it. */
  lemma CanHold(s: State, i: nat, n: nat)
    requires i in s.instances && s.instances[i].phase.Idle?
    requires CanOpen(s.kernel, s.instances[i].path, Fd(s.instances[i].process, n), n, n)
    requires !Taken(s.kernel, s.instances[i].path) && n !in s.kernel.holder
    ensures Possible(s, Hold(i, n))
    ensures
      var t, path := After(s, Hold(i, n)), s.instances[i].path;
      && t.instances == s.instances[i := s.instances[i].(phase := Holding(Fd(s.instances[i].process, n)))]
      && path in t.kernel.names && t.kernel.names == WithName(s.kernel, path, n).names
      && t.kernel.fds == s.kernel.fds[Fd(s.instances[i].process, n) := n]
      && t.kernel.files == s.kernel.files[n := t.kernel.names[path]]
      && t.kernel.holder == s.kernel.holder[t.kernel.names[path] := n]
  {
    var fd := Fd(s.instances[i].process, n);
    var s1 := Do(s, OpenLock(i, n, n, n));
    var s2 := Do(s1, Take(i));
    var s3 := Do(s2, SetFd(i));
    ThreeSteps(s, OpenLock(i, n, n, n), Take(i), SetFd(i));
    MoveMove(s, i, Opened(fd), s1.kernel, Locked(fd), s2.kernel);
    MoveMove(s, i, Locked(fd), s2.kernel, Holding(fd), s2.kernel);
  }

  lemma {:induction false} RunsCompose(s: State, a: seq<Step>, b: seq<Step>)
    requires Possible(s, a) && Possible(After(s, a), b)
    ensures Possible(s, a + b) && After(s, a + b) == After(After(s, a), b)
    decreases |a|
  {
    hide Enabled, Do;
    if a == [] {
      assert a + b == b;
    } else {
      assert (a + b)[1..] == a[1..] + b;
      RunsCompose(Do(s, a[0]), a[1..], b);
    }
  }

  lemma ReachableOn(s: State, steps: seq<Step>)
    requires Reachable(s) && Possible(s, steps)
    ensures Reachable(After(s, steps))
  {
    hide Possible, After, Init;
    var init: State, run: seq<Step> :| Init(init) && Possible(init, run) && After(init, run) == s;
    RunsCompose(init, run, steps);
  }

  ghost predicate HoldsAt(s: State, i: nat) {
    i in s.instances && s.instances[i].phase.Holding?
  }

  /** Unlinking the lock file once one instance holds lets another take the same lock. */
  lemma UnlinkBreaksExclusion() returns (t: State, u: State)
    ensures Reachable(t) && HoldsAt(t, 0)
    ensures Possible(Unlink(t, t.instances[0].path), Hold(1, 2))
    ensures u == After(Unlink(t, t.instances[0].path), Hold(1, 2))
    ensures HoldsAt(u, 0) && HoldsAt(u, 1) && u.instances[0].path == u.instances[1].path
  {
    hide After, Possible, Reachable;
    var s := Start("/d", "/d");
    StartIsReachable("/d", "/d");
    CanHold(s, 0, 1);
    ReachableOn(s, Hold(0, 1));
    t := After(s, Hold(0, 1));
    CanHold(Unlink(t, t.instances[0].path), 1, 2);
    u := After(Unlink(t, t.instances[0].path), Hold(1, 2));
  }

  /** Two locks directories do not exclude each other on one root. */
  lemma DirectoriesDoNotExclude() returns (u: State)
    ensures Reachable(u) && HoldsAt(u, 0) && HoldsAt(u, 1)
    ensures u.instances[0].path.digest == u.instances[1].path.digest
  {
    hide After, Possible, Reachable;
    var s := Start("/d", "/e");
    StartIsReachable("/d", "/e");
    CanHold(s, 0, 1);
    ReachableOn(s, Hold(0, 1));
    var t := After(s, Hold(0, 1));
    CanHold(t, 1, 2);
    ReachableOn(t, Hold(1, 2));
    u := After(t, Hold(1, 2));
  }
}
