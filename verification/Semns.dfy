/** semns.c main: father and child, a pipe and the semaphore, in every interleaving.

    The system calls do what the kernel state makes them do: a semop on a semaphore that the caller's
    IPC namespace does not have fails, one that cannot proceed blocks, a read on an empty pipe blocks
    while somebody can write.  unshare(CLONE_NEWIPC) applies the caller's adjustments. */
module Semns {
  import opened Runs
  import opened Pipes

  const SYNC: nat := 0

  /** `undo` is the command-line argument; `unshares` the user's answer; `prior` the semaphore left
      under the key by an earlier run, if any. */
  datatype Config = Config(undo: bool, unshares: bool, prior: Option<int>)

  datatype Proc = Father | Child

  datatype FatherPc =
    | OpenPipe | RemoveOld | CreateSem | FatherLock | Fork
    | FatherCloseWrite | Read1 | UnshareOrUnlock | Read2 | FatherCloseRead | LockAgain | WaitChild | RemoveSem
    | FatherExited(status: int)

  datatype ChildPc =
    | NotForked | ChildCloseRead | GetSem | Write1 | ChildLock | Write2 | ChildUnlock | ChildExit
    | ChildExited(status: int)

  /** `sem` is the semaphore of the first namespace, where the child stays. */
  datatype State = State(kernel: Kernel<Proc>, f: FatherPc, c: ChildPc,
                         sem: Option<int>, fatherAdj: int, childAdj: int, fatherInNs: bool, reaped: bool)

  function Init(cfg: Config): State {
    State(Kernel(map[Father := {}], map[]), OpenPipe, NotForked, cfg.prior, 0, 0, true, false)
  }

  /** The semaphore when a process leaves with adjustment `adj`. */
  function GiveBack(sem: Option<int>, adj: int): Option<int> {
    if sem.Some? then Some(sem.value + adj) else None
  }

  function FatherEnd(s: State, status: int): State {
    s.(kernel := Exit(s.kernel, Father), f := FatherExited(status), fatherAdj := 0,
       sem := if s.fatherInNs then GiveBack(s.sem, s.fatherAdj) else s.sem)
  }

  function ChildEnd(s: State, status: int): State {
    s.(kernel := Exit(s.kernel, Child), c := ChildExited(status), childAdj := 0, sem := GiveBack(s.sem, s.childAdj))
  }

  /** P by the father: an error outside the namespace, blocked when the value is 0. */
  function FatherP(cfg: Config, s: State, next: FatherPc): Option<State> {
    if !s.fatherInNs || s.sem.None? then Some(FatherEnd(s, 1))
    else if s.sem.value < 1 then None
    else Some(s.(sem := Some(s.sem.value - 1), fatherAdj := s.fatherAdj + (if cfg.undo then 1 else 0), f := next))
  }

  function FatherRead(s: State, next: FatherPc): Option<State> {
    match Pipes.Read(s.kernel, SYNC)
    case Blocked => None
    case Eof => Some(FatherEnd(s, 1))
    case Got(_) => Some(s.(kernel := Take(s.kernel, SYNC), f := next))
  }

  function FatherStep(cfg: Config, s: State): Option<State> {
    match s.f
    case OpenPipe => Some(s.(kernel := Open(s.kernel, Father, SYNC), f := RemoveOld))
    case RemoveOld => Some(s.(sem := None, f := CreateSem))
    case CreateSem =>
      if s.sem.Some? then Some(FatherEnd(s, 1)) else Some(s.(sem := Some(1), f := FatherLock))
    case FatherLock => FatherP(cfg, s, Fork)
    case Fork =>
      Some(s.(kernel := Pipes.Fork(s.kernel, Father, Child), c := ChildCloseRead, f := FatherCloseWrite))
    case FatherCloseWrite => Some(s.(kernel := Close(s.kernel, Father, Wr(SYNC)), f := Read1))
    case Read1 => FatherRead(s, UnshareOrUnlock)
    case UnshareOrUnlock =>
      if cfg.unshares then
        Some(s.(sem := GiveBack(s.sem, s.fatherAdj), fatherAdj := 0, fatherInNs := false, f := Read2))
      else if s.sem.None? then Some(FatherEnd(s, 1))
      else
        Some(s.(sem := Some(s.sem.value + 1), fatherAdj := s.fatherAdj - (if cfg.undo then 1 else 0), f := Read2))
    case Read2 => FatherRead(s, FatherCloseRead)
    case FatherCloseRead => Some(s.(kernel := Close(s.kernel, Father, Rd(SYNC)), f := LockAgain))
    case LockAgain => FatherP(cfg, s, WaitChild)
    case WaitChild => if !s.c.ChildExited? then None else Some(s.(reaped := true, f := RemoveSem))
    case RemoveSem => Some(FatherEnd(s.(sem := if s.fatherInNs then None else s.sem), 0))
    case FatherExited(_) => None
  }

  function ChildWrite(s: State, message: int, next: ChildPc): Option<State> {
    if !HasReader(s.kernel, SYNC) then Some(ChildEnd(s, -13))
    else Some(s.(kernel := Write(s.kernel, SYNC, message), c := next))
  }

  function ChildStep(cfg: Config, s: State): Option<State> {
    match s.c
    case ChildCloseRead => Some(s.(kernel := Close(s.kernel, Child, Rd(SYNC)), c := GetSem))
    case GetSem => if s.sem.None? then Some(ChildEnd(s, 1)) else Some(s.(c := Write1))
    case Write1 => ChildWrite(s, 0, ChildLock)
    case ChildLock =>
      if s.sem.None? then Some(ChildEnd(s, 1))
      else if s.sem.value < 1 then None
      else Some(s.(sem := Some(s.sem.value - 1), childAdj := s.childAdj + (if cfg.undo then 1 else 0), c := Write2))
    case Write2 => ChildWrite(s, 1, ChildUnlock)
    case ChildUnlock =>
      if s.sem.None? then Some(ChildEnd(s, 1))
      else Some(s.(sem := Some(s.sem.value + 1), childAdj := s.childAdj - (if cfg.undo then 1 else 0), c := ChildExit))
    case ChildExit => Some(ChildEnd(s, 0))
    case NotForked => None
    case ChildExited(_) => None
  }

  function Step(cfg: Config, s: State, who: Proc): Option<State> {
    if who.Father? then FatherStep(cfg, s) else ChildStep(cfg, s)
  }

  function Machine(cfg: Config): (State, Proc) -> Option<State> { (s, who) => Step(cfg, s, who) }

  ghost predicate Reaches(cfg: Config, es: seq<Proc>, s: State) {
    Play(Machine(cfg), Init(cfg), es) == Some(s)
  }

  ghost predicate Stuck(cfg: Config, s: State) { forall who: Proc :: Step(cfg, s, who).None? }

  // ----- the invariant -----

  function FatherEnds(pc: FatherPc): set<End> {
    match pc
    case OpenPipe => {}
    case RemoveOld => {Rd(SYNC), Wr(SYNC)}
    case CreateSem => {Rd(SYNC), Wr(SYNC)}
    case FatherLock => {Rd(SYNC), Wr(SYNC)}
    case Fork => {Rd(SYNC), Wr(SYNC)}
    case FatherCloseWrite => {Rd(SYNC), Wr(SYNC)}
    case Read1 => {Rd(SYNC)}
    case UnshareOrUnlock => {Rd(SYNC)}
    case Read2 => {Rd(SYNC)}
    case FatherCloseRead => {Rd(SYNC)}
    case _ => {}
  }

  function ChildEnds(pc: ChildPc): set<End> {
    match pc
    case NotForked => {}
    case ChildCloseRead => {Rd(SYNC), Wr(SYNC)}
    case ChildExited(_) => {}
    case _ => {Wr(SYNC)}
  }

  predicate BeforeFork(pc: FatherPc) {
    pc.OpenPipe? || pc.RemoveOld? || pc.CreateSem? || pc.FatherLock? || pc.Fork?
  }

  /** Messages the father has read, and messages the child has written. */
  function ReadCount(pc: FatherPc): nat {
    match pc
    case UnshareOrUnlock => 1
    case Read2 => 1
    case FatherCloseRead => 2
    case LockAgain => 2
    case WaitChild => 2
    case RemoveSem => 2
    case FatherExited(_) => 2
    case _ => 0
  }

  function WriteCount(pc: ChildPc): nat {
    match pc
    case ChildLock => 1
    case Write2 => 1
    case ChildUnlock => 2
    case ChildExit => 2
    case ChildExited(_) => 2
    case _ => 0
  }

  /** 1 while the father keeps the semaphore down: it holds the lock, or took it away by unsharing
      without undo. */
  function FatherShare(cfg: Config, pc: FatherPc): int {
    match pc
    case Fork => 1
    case FatherCloseWrite => 1
    case Read1 => 1
    case UnshareOrUnlock => 1
    case WaitChild => 1
    case RemoveSem => 1
    case _ =>
      if cfg.unshares && !cfg.undo && (pc.Read2? || pc.FatherCloseRead? || pc.LockAgain? || pc.FatherExited?) then 1
      else 0
  }

  function ChildShare(pc: ChildPc): int {
    if pc.Write2? || pc.ChildUnlock? then 1 else 0
  }

  ghost predicate PipeInv(s: State) {
    && Fds(s.kernel, Father) == FatherEnds(s.f)
    && Fds(s.kernel, Child) == ChildEnds(s.c)
    && ReadCount(s.f) <= WriteCount(s.c)
    && Buf(s.kernel, SYNC) == [0, 1][ReadCount(s.f)..WriteCount(s.c)]
  }

  ghost predicate SemInv(cfg: Config, s: State) {
    && (s.f.OpenPipe? || s.f.RemoveOld? ==> s.sem == cfg.prior)
    && (s.f.CreateSem? || s.f == FatherExited(0) ==> s.sem == None)
    && (!s.f.OpenPipe? && !s.f.RemoveOld? && !s.f.CreateSem? && s.f != FatherExited(0) ==>
          s.sem == Some(1 - FatherShare(cfg, s.f) - ChildShare(s.c)) && s.sem.value >= 0)
    && s.fatherAdj == (if cfg.undo && s.f != FatherExited(0) then FatherShare(cfg, s.f) else 0)
    && s.childAdj == (if cfg.undo then ChildShare(s.c) else 0)
  }

  ghost predicate ControlInv(cfg: Config, s: State) {
    && (s.c.NotForked? <==> BeforeFork(s.f))
    && (s.fatherInNs <==>
          !(cfg.unshares && (s.f.Read2? || s.f.FatherCloseRead? || s.f.LockAgain? || s.f.FatherExited?)))
    && (cfg.unshares ==> !s.f.WaitChild? && !s.f.RemoveSem?)
    && (s.f.WaitChild? ==> s.c.ChildExit? || s.c.ChildExited?)
    && (s.f.RemoveSem? ==> s.c.ChildExited?)
    && (s.c.ChildExited? ==> s.c.status == 0)
    && (s.reaped <==> s.f.RemoveSem? || s.f == FatherExited(0))
    && (s.f.FatherExited? ==> if cfg.unshares then cfg.undo && s.f.status == 1 else s.f.status == 0 && s.c.ChildExited?)
    && (cfg.unshares && !cfg.undo ==> WriteCount(s.c) <= 1 && !s.c.Write2?)
  }

  ghost predicate Inv(cfg: Config, s: State) { PipeInv(s) && SemInv(cfg, s) && ControlInv(cfg, s) }

  lemma Ends(s: State)
    ensures HasWriter(s.kernel, SYNC) <==> Wr(SYNC) in Fds(s.kernel, Father) || Wr(SYNC) in Fds(s.kernel, Child)
    ensures HasReader(s.kernel, SYNC) <==> Rd(SYNC) in Fds(s.kernel, Father) || Rd(SYNC) in Fds(s.kernel, Child)
  {
    if HasWriter(s.kernel, SYNC) {
      var p :| p in s.kernel.fds && Wr(SYNC) in s.kernel.fds[p];
      assert p == Father || p == Child;
    }
    if HasReader(s.kernel, SYNC) {
      var p :| p in s.kernel.fds && Rd(SYNC) in s.kernel.fds[p];
      assert p == Father || p == Child;
    }
    assert forall p :: Fds(s.kernel, p) != {} ==> p in s.kernel.fds;
  }

  /** A step of the father that moves no end, and one that ends it. */
  lemma PipeUnmoved(s: State, t: State)
    requires PipeInv(s) && t.kernel == s.kernel && t.c == s.c
    requires FatherEnds(t.f) == FatherEnds(s.f) && ReadCount(t.f) == ReadCount(s.f)
    ensures PipeInv(t)
  {
  }

  lemma PipeAfterFatherEnd(s: State, status: int)
    requires PipeInv(s) && ReadCount(s.f) == 2
    ensures PipeInv(FatherEnd(s, status))
  {
  }

  lemma FatherOpensPipe(cfg: Config, s: State)
    requires Inv(cfg, s) && s.f.OpenPipe?
    ensures PipeInv(FatherStep(cfg, s).value)
  {
  }

  lemma FatherForks(cfg: Config, s: State)
    requires Inv(cfg, s) && s.f.Fork?
    ensures PipeInv(FatherStep(cfg, s).value)
  {
  }

  lemma FatherCloses(cfg: Config, s: State)
    requires Inv(cfg, s) && (s.f.FatherCloseWrite? || s.f.FatherCloseRead?)
    ensures PipeInv(FatherStep(cfg, s).value)
  {
    CloseEnds(s.kernel, Father, if s.f.FatherCloseWrite? then Wr(SYNC) else Rd(SYNC));
  }

  lemma FatherReads(cfg: Config, s: State)
    requires Inv(cfg, s) && FatherStep(cfg, s).Some? && (s.f.Read1? || s.f.Read2?)
    ensures PipeInv(FatherStep(cfg, s).value)
  {
    FatherCallsSucceed(cfg, s);
  }

  lemma FatherKeepsPipe(cfg: Config, s: State)
    requires Inv(cfg, s) && FatherStep(cfg, s).Some?
    ensures PipeInv(FatherStep(cfg, s).value)
  {
    match s.f
    case OpenPipe => FatherOpensPipe(cfg, s);
    case Fork => FatherForks(cfg, s);
    case FatherCloseWrite => FatherCloses(cfg, s);
    case FatherCloseRead => FatherCloses(cfg, s);
    case Read1 => FatherReads(cfg, s);
    case Read2 => FatherReads(cfg, s);
    case LockAgain => FatherLocksAgain(cfg, s);
    case RemoveSem => PipeAfterFatherEnd(s, 0);
    case FatherExited(_) =>
    case _ => PipeUnmoved(s, FatherStep(cfg, s).value);
  }

  lemma FatherLocksAgain(cfg: Config, s: State)
    requires Inv(cfg, s) && FatherStep(cfg, s).Some? && s.f.LockAgain?
    ensures PipeInv(FatherStep(cfg, s).value)
  {
    if FatherStep(cfg, s).value.f.FatherExited? {
      PipeAfterFatherEnd(s, 1);
    } else {
      PipeUnmoved(s, FatherStep(cfg, s).value);
    }
  }

  /** The father never reads end-of-file, and never finds its semaphore gone before it unshares. */
  lemma FatherCallsSucceed(cfg: Config, s: State)
    requires Inv(cfg, s) && FatherStep(cfg, s).Some?
    ensures s.f.Read1? ==> FatherStep(cfg, s).value == s.(kernel := Take(s.kernel, SYNC), f := UnshareOrUnlock)
    ensures s.f.Read2? ==> FatherStep(cfg, s).value == s.(kernel := Take(s.kernel, SYNC), f := FatherCloseRead)
    ensures s.f.LockAgain? && !cfg.unshares ==> FatherStep(cfg, s).value.f.WaitChild?
    ensures s.f.Read1? ==> WriteCount(s.c) >= 1
    ensures s.f.Read2? ==> WriteCount(s.c) >= 2
  {
    Ends(s);
  }

  /** The calls of the father that move the semaphore or its adjustment. */
  predicate UsesSem(pc: FatherPc) {
    pc.RemoveOld? || pc.CreateSem? || pc.FatherLock? || pc.UnshareOrUnlock? || pc.LockAgain? || pc.RemoveSem?
  }

  lemma FatherUsesSem(cfg: Config, s: State)
    requires Inv(cfg, s) && FatherStep(cfg, s).Some? && UsesSem(s.f)
    ensures SemInv(cfg, FatherStep(cfg, s).value)
  {
    FatherCallsSucceed(cfg, s);
  }

  lemma FatherKeepsSem(cfg: Config, s: State)
    requires Inv(cfg, s) && FatherStep(cfg, s).Some?
    ensures SemInv(cfg, FatherStep(cfg, s).value)
  {
    if UsesSem(s.f) {
      FatherUsesSem(cfg, s);
    } else {
      FatherCallsSucceed(cfg, s);
    }
  }

  lemma FatherKeepsControl(cfg: Config, s: State)
    requires Inv(cfg, s) && FatherStep(cfg, s).Some?
    ensures ControlInv(cfg, FatherStep(cfg, s).value)
  {
    FatherCallsSucceed(cfg, s);
  }

  lemma ChildKeepsPipe(cfg: Config, s: State)
    requires Inv(cfg, s) && ChildStep(cfg, s).Some?
    ensures PipeInv(ChildStep(cfg, s).value)
  {
    Ends(s);
  }

  lemma ChildKeepsSem(cfg: Config, s: State)
    requires Inv(cfg, s) && ChildStep(cfg, s).Some?
    ensures SemInv(cfg, ChildStep(cfg, s).value)
  {
    ChildCallsSucceed(cfg, s);
  }

  lemma ChildKeepsControl(cfg: Config, s: State)
    requires Inv(cfg, s) && ChildStep(cfg, s).Some?
    ensures ControlInv(cfg, ChildStep(cfg, s).value)
  {
    ChildCallsSucceed(cfg, s);
  }

  /** The child never writes without a reader, and never finds the semaphore gone. */
  lemma ChildCallsSucceed(cfg: Config, s: State)
    requires Inv(cfg, s) && ChildStep(cfg, s).Some?
    ensures ChildStep(cfg, s).value.c.ChildExited? <==> s.c.ChildExit?
    ensures cfg.unshares && !cfg.undo ==> !s.c.ChildLock?
  {
    Ends(s);
  }

  lemma StepKeepsInv(cfg: Config, s: State, who: Proc)
    requires Inv(cfg, s) && Step(cfg, s, who).Some?
    ensures Inv(cfg, Step(cfg, s, who).value)
  {
    if who.Father? {
      FatherKeepsPipe(cfg, s);
      FatherKeepsSem(cfg, s);
      FatherKeepsControl(cfg, s);
    } else {
      ChildKeepsPipe(cfg, s);
      ChildKeepsSem(cfg, s);
      ChildKeepsControl(cfg, s);
    }
  }

  lemma ReachableInv(cfg: Config, es: seq<Proc>, s: State)
    requires Reaches(cfg, es, s)
    ensures Inv(cfg, s)
  {
    var step, inv := Machine(cfg), (u: State) => Inv(cfg, u);
    forall u, e | inv(u) && step(u, e).Some? ensures inv(step(u, e).value) {
      StepKeepsInv(cfg, u, e);
    }
    Runs.Invariant(step, inv, Init(cfg), es);
  }

  // ----- how runs end -----

  function FatherRank(pc: FatherPc): nat {
    match pc
    case OpenPipe => 13
    case RemoveOld => 12
    case CreateSem => 11
    case FatherLock => 10
    case Fork => 9
    case FatherCloseWrite => 8
    case Read1 => 7
    case UnshareOrUnlock => 6
    case Read2 => 5
    case FatherCloseRead => 4
    case LockAgain => 3
    case WaitChild => 2
    case RemoveSem => 1
    case FatherExited(_) => 0
  }

  function ChildRank(pc: ChildPc): nat {
    match pc
    case NotForked => 8
    case ChildCloseRead => 7
    case GetSem => 6
    case Write1 => 5
    case ChildLock => 4
    case Write2 => 3
    case ChildUnlock => 2
    case ChildExit => 1
    case ChildExited(_) => 0
  }

  function Rank(s: State): nat { FatherRank(s.f) + ChildRank(s.c) }

  lemma FatherLowersRank(cfg: Config, s: State)
    requires ControlInv(cfg, s) && FatherStep(cfg, s).Some?
    ensures Rank(FatherStep(cfg, s).value) < Rank(s)
  {
  }

  lemma ChildLowersRank(cfg: Config, s: State)
    requires ChildStep(cfg, s).Some?
    ensures Rank(ChildStep(cfg, s).value) < Rank(s)
  {
  }

  /** No run is longer than 21 calls. */
  lemma BoundedRun(cfg: Config, es: seq<Proc>, s: State)
    requires Reaches(cfg, es, s)
    ensures |es| + Rank(s) <= 21
  {
    var step, inv, rank := Machine(cfg), (u: State) => Inv(cfg, u), (u: State) => Rank(u);
    forall u, e | inv(u) && step(u, e).Some?
      ensures inv(step(u, e).value) && rank(step(u, e).value) < rank(u)
    {
      StepKeepsInv(cfg, u, e);
      if e.Father? { FatherLowersRank(cfg, u); } else { ChildLowersRank(cfg, u); }
    }
    Runs.Bounded(step, inv, rank, Init(cfg), es);
  }

  /** Where a run without any further step has ended. */
  ghost predicate BlockedForEver(s: State) {
    s.f.Read2? && s.c.ChildLock? && s.sem == Some(0)
  }

  ghost predicate FatherFails(s: State) {
    s.f == FatherExited(1) && s.c == ChildExited(0) && !s.reaped && s.sem == Some(1)
  }

  ghost predicate Completes(s: State) {
    s.f == FatherExited(0) && s.c == ChildExited(0) && s.reaped && s.sem == None
  }

  ghost predicate Final(cfg: Config, s: State) {
    if !cfg.unshares then Completes(s)
    else if cfg.undo then FatherFails(s)
    else BlockedForEver(s)
  }

  lemma FinalIsStuck(cfg: Config, s: State)
    requires Inv(cfg, s) && Final(cfg, s)
    ensures Stuck(cfg, s)
  {
    Ends(s);
    assert Step(cfg, s, Father).None? && Step(cfg, s, Child).None?;
  }

  /** Before that, one of the two can go on. */
  lemma Progress(cfg: Config, s: State)
    requires Inv(cfg, s) && !Final(cfg, s)
    ensures !Stuck(cfg, s)
  {
    Ends(s);
    var childNext := match s.f
      case Read1 => WriteCount(s.c) == 0
      case Read2 => WriteCount(s.c) <= 1
      case LockAgain => !cfg.unshares && s.sem == Some(0)
      case WaitChild => !s.c.ChildExited?
      case FatherExited(_) => true
      case _ => false;
    assert Step(cfg, s, if childNext then Child else Father).Some?;
  }

  /** The outcome depends on the answer and on SEM_UNDO only, not on the interleaving.  Unsharing
      without undo always blocks both processes; unsharing with undo lets the child finish, and the
      father's last P fails in its new namespace, leaving the semaphore behind; not unsharing ends with
      the child reaped and the semaphore removed. */
  lemma Outcome(cfg: Config, es: seq<Proc>, s: State)
    requires Reaches(cfg, es, s)
    ensures |es| <= 21
    ensures Stuck(cfg, s) <==>
              if !cfg.unshares then Completes(s)
              else if cfg.undo then FatherFails(s)
              else BlockedForEver(s)
  {
    BoundedRun(cfg, es, s);
    ReachableInv(cfg, es, s);
    if Final(cfg, s) {
      FinalIsStuck(cfg, s);
    } else {
      Progress(cfg, s);
    }
  }
}
