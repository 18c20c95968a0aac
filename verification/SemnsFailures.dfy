/** semns.c main when calls fail: how runs end then, with and without SEM_UNDO. */
module SemnsFailures {
  import opened Runs
  import opened Pipes
  import opened Semns

  /** A process makes its next call; `ok` says whether it succeeds as far as the system is concerned. */
  datatype Event = Event(who: Proc, ok: bool)

  /** The father after an error.  The results of semV_destroy and waitpid are not looked at, and for fork
      only a result of 0 is.  A close does not fail. */
  function FatherError(s: State): Option<State> {
    match s.f
    case RemoveOld => Some(s.(f := CreateSem))
    case Fork => Some(s.(f := FatherCloseWrite))
    case WaitChild => Some(s.(f := RemoveSem))
    case RemoveSem => Some(FatherEnd(s, 0))
    case FatherCloseWrite => None
    case FatherCloseRead => None
    case FatherExited(_) => None
    case _ => Some(FatherEnd(s, 1))
  }

  function ChildError(s: State): Option<State> {
    match s.c
    case NotForked => None
    case ChildCloseRead => None
    case ChildExit => None
    case ChildExited(_) => None
    case _ => Some(ChildEnd(s, 1))
  }

  function StepOf(cfg: Config, s: State, e: Event): Option<State> {
    if e.ok then Semns.Step(cfg, s, e.who)
    else if e.who.Father? then FatherError(s)
    else ChildError(s)
  }

  function MachineOf(cfg: Config): (State, Event) -> Option<State> { (s, e) => StepOf(cfg, s, e) }

  ghost predicate ReachesWith(cfg: Config, es: seq<Event>, s: State) {
    Play(MachineOf(cfg), Semns.Init(cfg), es) == Some(s)
  }

  // ----- the invariant -----

  /** The father has locked the semaphore and not unlocked it. */
  function Holding(pc: FatherPc): int {
    match pc
    case Fork => 1
    case FatherCloseWrite => 1
    case Read1 => 1
    case UnshareOrUnlock => 1
    case WaitChild => 1
    case RemoveSem => 1
    case _ => 0
  }

  predicate AfterUnshare(pc: FatherPc) { pc.Read2? || pc.FatherCloseRead? || pc.LockAgain? }

  predicate BeforeLock(pc: FatherPc) { pc.OpenPipe? || pc.RemoveOld? || pc.CreateSem? }

  ghost predicate EndsInv(s: State) {
    && Fds(s.kernel, Father) == FatherEnds(s.f)
    && Fds(s.kernel, Child) == ChildEnds(s.c)
  }

  ghost predicate MessageInv(s: State) {
    !s.f.FatherExited? && !s.c.ChildExited? ==>
      ReadCount(s.f) <= WriteCount(s.c) && |Buf(s.kernel, SYNC)| == WriteCount(s.c) - ReadCount(s.f)
  }

  ghost predicate LockInv(cfg: Config, s: State) {
    && (BeforeFork(s.f) ==> s.c.NotForked?)
    && (s.f.FatherLock? ==> s.sem == Some(1))
    && s.fatherAdj == (if cfg.undo then Holding(s.f) else 0)
    && s.childAdj == (if cfg.undo then ChildShare(s.c) else 0)
    && (!s.fatherInNs ==> cfg.unshares && (AfterUnshare(s.f) || s.f.FatherExited?))
    && (cfg.unshares && AfterUnshare(s.f) ==> !s.fatherInNs)
    && (s.sem.Some? && (!s.c.NotForked? || (!BeforeLock(s.f) && !s.f.FatherExited?)) ==>
          var taken := Holding(s.f) + ChildShare(s.c);
          s.sem.value >= 0 && if cfg.undo then s.sem.value + taken == 1 else s.sem.value + taken <= 1)
    && (s.sem.None? && !BeforeLock(s.f) ==> s.f.FatherExited?)
  }

  ghost predicate FailInv(cfg: Config, s: State) { EndsInv(s) && MessageInv(s) && LockInv(cfg, s) }

  // which ends are held

  lemma EndsAfterEnd(s: State, status: int)
    requires EndsInv(s)
    ensures EndsInv(FatherEnd(s, status)) && EndsInv(ChildEnd(s, status))
  {
  }

  lemma EndsUnmoved(s: State, t: State)
    requires EndsInv(s) && t.kernel.fds == s.kernel.fds
    requires FatherEnds(t.f) == FatherEnds(s.f) && ChildEnds(t.c) == ChildEnds(s.c)
    ensures EndsInv(t)
  {
  }

  lemma FatherClosing(cfg: Config, s: State)
    requires EndsInv(s) && (s.f.FatherCloseWrite? || s.f.FatherCloseRead?)
    ensures Semns.FatherStep(cfg, s).Some? && EndsInv(Semns.FatherStep(cfg, s).value)
  {
    CloseEnds(s.kernel, Father, if s.f.FatherCloseWrite? then Wr(SYNC) else Rd(SYNC));
  }

  lemma FatherOpening(cfg: Config, s: State)
    requires EndsInv(s) && (s.f.OpenPipe? || (s.f.Fork? && s.c.NotForked?))
    ensures Semns.FatherStep(cfg, s).Some? && EndsInv(Semns.FatherStep(cfg, s).value)
  {
  }

  lemma FatherLocking(cfg: Config, s: State)
    requires EndsInv(s) && (s.f.FatherLock? || s.f.LockAgain?) && Semns.FatherStep(cfg, s).Some?
    ensures EndsInv(Semns.FatherStep(cfg, s).value)
  {
    if !s.fatherInNs || s.sem.None? { EndsAfterEnd(s, 1); } else { EndsUnmoved(s, Semns.FatherStep(cfg, s).value); }
  }

  lemma FatherReading(cfg: Config, s: State)
    requires EndsInv(s) && (s.f.Read1? || s.f.Read2?) && Semns.FatherStep(cfg, s).Some?
    ensures EndsInv(Semns.FatherStep(cfg, s).value)
  {
    if Pipes.Read(s.kernel, SYNC).Eof? { EndsAfterEnd(s, 1); } else { EndsUnmoved(s, Semns.FatherStep(cfg, s).value); }
  }

  lemma FatherElsewhere(cfg: Config, s: State)
    requires EndsInv(s) && Semns.FatherStep(cfg, s).Some?
    requires s.f.RemoveOld? || s.f.CreateSem? || s.f.UnshareOrUnlock? || s.f.WaitChild?
    ensures EndsInv(Semns.FatherStep(cfg, s).value)
  {
    if Semns.FatherStep(cfg, s).value.f.FatherExited? {
      EndsAfterEnd(s, 1);
    } else {
      EndsUnmoved(s, Semns.FatherStep(cfg, s).value);
    }
  }

  lemma FatherStepEnds(cfg: Config, s: State)
    requires EndsInv(s) && (s.f.Fork? ==> s.c.NotForked?) && Semns.FatherStep(cfg, s).Some?
    ensures EndsInv(Semns.FatherStep(cfg, s).value)
  {
    match s.f
    case OpenPipe => FatherOpening(cfg, s);
    case Fork => FatherOpening(cfg, s);
    case FatherCloseWrite => FatherClosing(cfg, s);
    case FatherCloseRead => FatherClosing(cfg, s);
    case FatherLock => FatherLocking(cfg, s);
    case LockAgain => FatherLocking(cfg, s);
    case Read1 => FatherReading(cfg, s);
    case Read2 => FatherReading(cfg, s);
    case RemoveSem => EndsAfterEnd(s.(sem := if s.fatherInNs then None else s.sem), 0);
    case FatherExited(_) =>
    case _ => FatherElsewhere(cfg, s);
  }

  lemma ChildStepEnds(cfg: Config, s: State)
    requires EndsInv(s) && Semns.ChildStep(cfg, s).Some?
    ensures EndsInv(Semns.ChildStep(cfg, s).value)
  {
    var t := Semns.ChildStep(cfg, s).value;
    if t.c.ChildExited? {
      ChildExitStatus(cfg, s);
      EndsAfterEnd(s, t.c.status);
    } else if s.c.ChildCloseRead? {
      CloseEnds(s.kernel, Child, Rd(SYNC));
    } else {
      EndsUnmoved(s, t);
    }
  }

  // the messages

  lemma FatherReadMessages(cfg: Config, s: State)
    requires MessageInv(s) && Semns.FatherStep(cfg, s).Some? && (s.f.Read1? || s.f.Read2?)
    ensures MessageInv(Semns.FatherStep(cfg, s).value)
  {
  }

  lemma FatherStepMessages(cfg: Config, s: State)
    requires MessageInv(s) && LockInv(cfg, s) && Semns.FatherStep(cfg, s).Some?
    ensures MessageInv(Semns.FatherStep(cfg, s).value)
  {
    if s.f.Read1? || s.f.Read2? {
      FatherReadMessages(cfg, s);
    }
  }

  lemma ChildStepMessages(cfg: Config, s: State)
    requires MessageInv(s) && Semns.ChildStep(cfg, s).Some?
    ensures MessageInv(Semns.ChildStep(cfg, s).value)
  {
  }

  // the lock

  lemma FatherEndLock(cfg: Config, s: State, status: int)
    requires LockInv(cfg, s) && !s.f.FatherExited?
    ensures LockInv(cfg, FatherEnd(s, status))
  {
  }

  lemma FatherPLock(cfg: Config, s: State)
    requires LockInv(cfg, s) && Semns.FatherStep(cfg, s).Some? && (s.f.FatherLock? || s.f.LockAgain?)
    ensures LockInv(cfg, Semns.FatherStep(cfg, s).value)
  {
    if Semns.FatherStep(cfg, s).value.f.FatherExited? { FatherEndLock(cfg, s, 1); }
  }

  lemma FatherLeavesLock(cfg: Config, s: State)
    requires LockInv(cfg, s) && Semns.FatherStep(cfg, s).Some? && s.f.UnshareOrUnlock?
    ensures LockInv(cfg, Semns.FatherStep(cfg, s).value)
  {
  }

  lemma FatherMakesSem(cfg: Config, s: State)
    requires LockInv(cfg, s) && Semns.FatherStep(cfg, s).Some?
    requires s.f.RemoveOld? || s.f.CreateSem? || s.f.RemoveSem?
    ensures LockInv(cfg, Semns.FatherStep(cfg, s).value)
  {
  }

  lemma FatherReadLock(cfg: Config, s: State)
    requires LockInv(cfg, s) && Semns.FatherStep(cfg, s).Some? && (s.f.Read1? || s.f.Read2?)
    ensures LockInv(cfg, Semns.FatherStep(cfg, s).value)
  {
    if Pipes.Read(s.kernel, SYNC).Eof? { FatherEndLock(cfg, s, 1); }
  }

  lemma FatherOtherLock(cfg: Config, s: State)
    requires LockInv(cfg, s) && Semns.FatherStep(cfg, s).Some? && !UsesSem(s.f) && !s.f.Read1? && !s.f.Read2?
    ensures LockInv(cfg, Semns.FatherStep(cfg, s).value)
  {
  }

  lemma FatherStepLock(cfg: Config, s: State)
    requires LockInv(cfg, s) && Semns.FatherStep(cfg, s).Some?
    ensures LockInv(cfg, Semns.FatherStep(cfg, s).value)
  {
    if s.f.FatherLock? || s.f.LockAgain? {
      FatherPLock(cfg, s);
    } else if s.f.UnshareOrUnlock? {
      FatherLeavesLock(cfg, s);
    } else if UsesSem(s.f) {
      FatherMakesSem(cfg, s);
    } else if s.f.Read1? || s.f.Read2? {
      FatherReadLock(cfg, s);
    } else {
      FatherOtherLock(cfg, s);
    }
  }

  lemma ChildEndLock(cfg: Config, s: State, status: int)
    requires LockInv(cfg, s) && !s.c.NotForked? && !s.c.ChildExited?
    ensures LockInv(cfg, ChildEnd(s, status))
  {
  }

  lemma ChildStepLock(cfg: Config, s: State)
    requires LockInv(cfg, s) && Semns.ChildStep(cfg, s).Some?
    ensures LockInv(cfg, Semns.ChildStep(cfg, s).value)
  {
    if Semns.ChildStep(cfg, s).value.c.ChildExited? {
      ChildExitStatus(cfg, s);
      ChildEndLock(cfg, s, Semns.ChildStep(cfg, s).value.c.status);
    }
  }

  lemma ChildExitStatus(cfg: Config, s: State)
    requires Semns.ChildStep(cfg, s).Some? && Semns.ChildStep(cfg, s).value.c.ChildExited?
    ensures Semns.ChildStep(cfg, s).value == ChildEnd(s, Semns.ChildStep(cfg, s).value.c.status)
  {
  }

  // errors

  lemma FatherGoesOnAnyway(cfg: Config, s: State)
    requires FailInv(cfg, s) && (s.f.RemoveOld? || s.f.Fork? || s.f.WaitChild?)
    ensures FatherError(s).Some? && FailInv(cfg, FatherError(s).value)
  {
    EndsUnmoved(s, FatherError(s).value);
  }

  lemma FatherErrorKeepsInv(cfg: Config, s: State)
    requires FailInv(cfg, s) && FatherError(s).Some?
    ensures FailInv(cfg, FatherError(s).value)
  {
    if s.f.RemoveOld? || s.f.Fork? || s.f.WaitChild? {
      FatherGoesOnAnyway(cfg, s);
    } else {
      var status := if s.f.RemoveSem? then 0 else 1;
      EndsAfterEnd(s, status);
      FatherEndLock(cfg, s, status);
    }
  }

  lemma ChildErrorKeepsInv(cfg: Config, s: State)
    requires FailInv(cfg, s) && ChildError(s).Some?
    ensures FailInv(cfg, ChildError(s).value)
  {
    EndsAfterEnd(s, 1);
    ChildEndLock(cfg, s, 1);
  }

  lemma StepOfKeepsInv(cfg: Config, s: State, e: Event)
    requires FailInv(cfg, s) && StepOf(cfg, s, e).Some?
    ensures FailInv(cfg, StepOf(cfg, s, e).value)
  {
    if e.who.Father? {
      if !e.ok {
        FatherErrorKeepsInv(cfg, s);
      } else {
        FatherStepEnds(cfg, s);
        FatherStepMessages(cfg, s);
        FatherStepLock(cfg, s);
      }
    } else if !e.ok {
      ChildErrorKeepsInv(cfg, s);
    } else {
      ChildStepEnds(cfg, s);
      ChildStepMessages(cfg, s);
      ChildStepLock(cfg, s);
    }
  }

  lemma InitFailInv(cfg: Config)
    ensures FailInv(cfg, Semns.Init(cfg))
  {
  }

  lemma FailReachableInv(cfg: Config, es: seq<Event>, s: State)
    requires ReachesWith(cfg, es, s)
    ensures FailInv(cfg, s)
  {
    var step, inv := MachineOf(cfg), (u: State) => FailInv(cfg, u);
    forall u, e | inv(u) && step(u, e).Some? ensures inv(step(u, e).value) {
      StepOfKeepsInv(cfg, u, e);
    }
    InitFailInv(cfg);
    Runs.Invariant(step, inv, Semns.Init(cfg), es);
  }

  // ----- how runs end -----

  predicate AllEnded(s: State) { s.f.FatherExited? && (s.c.NotForked? || s.c.ChildExited?) }

  /** The semaphore is down, and who wants it waits for a process that is gone or waits itself. */
  predicate Blocked(s: State) {
    && s.sem == Some(0)
    && ((s.c.ChildLock? && (s.f.Read2? || s.f.FatherExited?))
        || (s.f.LockAgain? && s.fatherInNs && s.c.ChildExited?))
  }

  lemma BlockedIsStuck(cfg: Config, s: State)
    requires FailInv(cfg, s) && Blocked(s)
    ensures Stuck(cfg, s)
  {
    Ends(s);
    assert Step(cfg, s, Father).None? && Step(cfg, s, Child).None?;
  }

  lemma GoesOn(cfg: Config, s: State)
    requires FailInv(cfg, s) && !AllEnded(s) && !Blocked(s)
    ensures !Stuck(cfg, s)
  {
    Ends(s);
    var childNext := match s.f
      case Read1 => |Buf(s.kernel, SYNC)| == 0 && !s.c.NotForked? && !s.c.ChildExited?
      case Read2 => |Buf(s.kernel, SYNC)| == 0 && !s.c.NotForked? && !s.c.ChildExited?
      case LockAgain => s.fatherInNs && s.sem == Some(0)
      case WaitChild => !s.c.ChildExited?
      case FatherExited(_) => true
      case _ => false;
    assert Step(cfg, s, if childNext then Child else Father).Some?;
  }

  lemma FatherAdvances(cfg: Config, s: State)
    requires Semns.FatherStep(cfg, s).Some?
    ensures FatherRank(Semns.FatherStep(cfg, s).value.f) < FatherRank(s.f)
  {
  }

  lemma FatherMovesChild(cfg: Config, s: State)
    requires Semns.FatherStep(cfg, s).Some?
    ensures Semns.FatherStep(cfg, s).value.c == if s.f.Fork? then ChildCloseRead else s.c
  {
  }

  lemma FatherLowers(cfg: Config, s: State)
    requires Semns.FatherStep(cfg, s).Some? && (s.f.Fork? ==> s.c.NotForked?)
    ensures Rank(Semns.FatherStep(cfg, s).value) < Rank(s)
  {
    FatherAdvances(cfg, s);
    FatherMovesChild(cfg, s);
  }

  lemma FatherErrorLowers(s: State)
    ensures FatherError(s).Some? ==> Rank(FatherError(s).value) < Rank(s)
  {
  }

  lemma ChildLowers(cfg: Config, s: State)
    ensures Semns.ChildStep(cfg, s).Some? ==> Rank(Semns.ChildStep(cfg, s).value) < Rank(s)
    ensures ChildError(s).Some? ==> Rank(ChildError(s).value) < Rank(s)
  {
  }

  lemma StepOfLowersRank(cfg: Config, s: State, e: Event)
    requires BeforeFork(s.f) ==> s.c.NotForked?
    requires StepOf(cfg, s, e).Some?
    ensures Rank(StepOf(cfg, s, e).value) < Rank(s)
  {
    if e.who.Child? {
      ChildLowers(cfg, s);
    } else if e.ok {
      FatherLowers(cfg, s);
    } else {
      FatherErrorLowers(s);
    }
  }

  lemma FailBounded(cfg: Config, es: seq<Event>, s: State)
    requires ReachesWith(cfg, es, s)
    ensures |es| + Rank(s) <= 21
  {
    var step, inv, rank := MachineOf(cfg), (u: State) => FailInv(cfg, u), (u: State) => Rank(u);
    forall u, e | inv(u) && step(u, e).Some?
      ensures inv(step(u, e).value) && rank(step(u, e).value) < rank(u)
    {
      StepOfKeepsInv(cfg, u, e);
      StepOfLowersRank(cfg, u, e);
    }
    InitFailInv(cfg);
    Runs.Bounded(step, inv, rank, Semns.Init(cfg), es);
  }

  lemma EndedIsStuck(cfg: Config, s: State)
    requires AllEnded(s)
    ensures Stuck(cfg, s)
  {
    assert Step(cfg, s, Father).None? && Step(cfg, s, Child).None?;
  }

  /** Whichever calls fail, every run is finite, and it stops when both processes have ended, or one of
      them is blocked in P for ever; with SEM_UNDO both always end, wherever they failed. */
  lemma EveryRunEnds(cfg: Config, es: seq<Event>, s: State)
    requires ReachesWith(cfg, es, s)
    ensures |es| <= 21
    ensures Stuck(cfg, s) <==> AllEnded(s) || Blocked(s)
    ensures cfg.undo ==> !Blocked(s)
  {
    FailBounded(cfg, es, s);
    FailReachableInv(cfg, es, s);
    if Blocked(s) {
      BlockedIsStuck(cfg, s);
    } else if AllEnded(s) {
      EndedIsStuck(cfg, s);
    } else {
      GoesOn(cfg, s);
    }
  }

  // ----- why a run blocks -----

  /** A process stops holding the semaphore without raising it: it ends or unshares inside. */
  predicate LeavesLocked(cfg: Config, s: State, e: Event) {
    StepOf(cfg, s, e).Some? &&
    var t := StepOf(cfg, s, e).value;
    && !s.c.NotForked? && s.sem.Some? && t.sem == s.sem
    && (Holding(t.f) < Holding(s.f) || ChildShare(t.c) < ChildShare(s.c))
  }

  /** Value, holders and nothing else: the one unit of the semaphore is gone. */
  predicate UnitLost(s: State) {
    !s.c.NotForked? && s.sem.Some? && s.sem.value + Holding(s.f) + ChildShare(s.c) == 0
  }

  lemma FatherLosesUnit(cfg: Config, s: State)
    requires LockInv(cfg, s) && StepOf(cfg, s, Event(Father, true)).Some?
    ensures UnitLost(StepOf(cfg, s, Event(Father, true)).value) <==>
              UnitLost(s) || LeavesLocked(cfg, s, Event(Father, true))
  {
  }

  lemma FatherErrorLosesUnit(cfg: Config, s: State)
    requires LockInv(cfg, s) && StepOf(cfg, s, Event(Father, false)).Some?
    ensures UnitLost(StepOf(cfg, s, Event(Father, false)).value) <==>
              UnitLost(s) || LeavesLocked(cfg, s, Event(Father, false))
  {
  }

  lemma ChildLosesUnit(cfg: Config, s: State)
    requires LockInv(cfg, s) && StepOf(cfg, s, Event(Child, true)).Some?
    ensures UnitLost(StepOf(cfg, s, Event(Child, true)).value) <==>
              UnitLost(s) || LeavesLocked(cfg, s, Event(Child, true))
  {
  }

  lemma ChildErrorLosesUnit(cfg: Config, s: State)
    requires LockInv(cfg, s) && StepOf(cfg, s, Event(Child, false)).Some?
    ensures UnitLost(StepOf(cfg, s, Event(Child, false)).value) <==>
              UnitLost(s) || LeavesLocked(cfg, s, Event(Child, false))
  {
  }

  lemma LosesUnit(cfg: Config, s: State, e: Event)
    requires LockInv(cfg, s) && StepOf(cfg, s, e).Some?
    ensures UnitLost(StepOf(cfg, s, e).value) <==> UnitLost(s) || LeavesLocked(cfg, s, e)
  {
    match e.who
    case Father => if e.ok { FatherLosesUnit(cfg, s); } else { FatherErrorLosesUnit(cfg, s); }
    case Child => if e.ok { ChildLosesUnit(cfg, s); } else { ChildErrorLosesUnit(cfg, s); }
  }

  lemma BlockedIsLost(cfg: Config, s: State)
    requires LockInv(cfg, s)
    ensures Blocked(s) && !s.c.NotForked? ==> UnitLost(s)
    ensures UnitLost(s) ==> !cfg.undo && s.sem == Some(0)
  {
  }

  /** The unit is lost if and only if such an event has happened, and a blocked run contains one. */
  lemma BlockedHasCause(cfg: Config, es: seq<Event>, s: State)
    requires ReachesWith(cfg, es, s)
    ensures UnitLost(s) <==>
            Runs.Occurs(MachineOf(cfg), (u: State, e: Event) => LeavesLocked(cfg, u, e), Semns.Init(cfg), es)
    ensures Blocked(s) ==> UnitLost(s)
    ensures UnitLost(s) ==> !cfg.undo && s.sem == Some(0)
  {
    var step, inv := MachineOf(cfg), (u: State) => FailInv(cfg, u);
    var leaves, lost := (u: State, e: Event) => LeavesLocked(cfg, u, e), (u: State) => UnitLost(u);
    forall u, e | inv(u) && step(u, e).Some?
      ensures inv(step(u, e).value) && (lost(step(u, e).value) <==> lost(u) || leaves(u, e))
    {
      StepOfKeepsInv(cfg, u, e);
      LosesUnit(cfg, u, e);
    }
    InitFailInv(cfg);
    assert !lost(Semns.Init(cfg));
    Runs.OccursIff(step, inv, leaves, lost, Semns.Init(cfg), es);
    FailReachableInv(cfg, es, s);
    BlockedIsLost(cfg, s);
  }

  // ----- statuses -----

  /** Status 0 is kept for a father that has come to the end of main, and a child that has unlocked. */
  lemma StatusZeroIff(cfg: Config, es: seq<Event>, s: State)
    requires ReachesWith(cfg, es, s)
    ensures s.f == FatherExited(0) <==>
            Runs.Occurs(MachineOf(cfg), (u: State, e: Event) => e.who.Father? && u.f.RemoveSem?, Semns.Init(cfg), es)
    ensures s.c == ChildExited(0) <==>
            Runs.Occurs(MachineOf(cfg),
                        (u: State, e: Event) => e.who.Child? && u.c.ChildExit? && e.ok, Semns.Init(cfg), es)
  {
    var step, inv := MachineOf(cfg), (u: State) => FailInv(cfg, u);
    var fatherEnds, childEnds :=
      (u: State, e: Event) => e.who.Father? && u.f.RemoveSem?,
      (u: State, e: Event) => e.who.Child? && u.c.ChildExit? && e.ok;
    var fatherMark, childMark := (u: State) => u.f == FatherExited(0), (u: State) => u.c == ChildExited(0);
    forall u, e | inv(u) && step(u, e).Some?
      ensures inv(step(u, e).value)
      ensures fatherMark(step(u, e).value) <==> fatherMark(u) || fatherEnds(u, e)
      ensures childMark(step(u, e).value) <==> childMark(u) || childEnds(u, e)
    {
      StepOfKeepsInv(cfg, u, e);
      if e.who.Child? {
        ChildStatus(cfg, u, e.ok);
      } else if e.ok {
        FatherStatus(cfg, u);
      } else {
        FatherErrorStatus(u);
      }
    }
    InitFailInv(cfg);
    Runs.OccursIff(step, inv, fatherEnds, fatherMark, Semns.Init(cfg), es);
    Runs.OccursIff(step, inv, childEnds, childMark, Semns.Init(cfg), es);
  }

  lemma FatherStatus(cfg: Config, s: State)
    requires Semns.FatherStep(cfg, s).Some? && (s.f.Fork? ==> s.c.NotForked?)
    ensures var t := Semns.FatherStep(cfg, s).value;
            && (t.f == FatherExited(0) <==> s.f.RemoveSem?) && !s.f.FatherExited?
            && (t.c == ChildExited(0) <==> s.c == ChildExited(0))
  {
  }

  lemma FatherErrorStatus(s: State)
    requires FatherError(s).Some?
    ensures var t := FatherError(s).value;
            (t.f == FatherExited(0) <==> s.f.RemoveSem?) && !s.f.FatherExited? && t.c == s.c
  {
  }

  lemma ChildStatus(cfg: Config, s: State, ok: bool)
    requires StepOf(cfg, s, Event(Child, ok)).Some?
    ensures var t := StepOf(cfg, s, Event(Child, ok)).value;
            && (t.c == ChildExited(0) <==> s.c.ChildExit? && ok) && !s.c.ChildExited? && t.f == s.f
  {
  }

  // ----- a blocked run -----

  lemma GoWith(cfg: Config, es: seq<Event>, s: State, who: Proc, ok: bool) returns (es': seq<Event>, t: State)
    requires ReachesWith(cfg, es, s) && StepOf(cfg, s, Event(who, ok)).Some?
    ensures ReachesWith(cfg, es', t) && Some(t) == StepOf(cfg, s, Event(who, ok))
  {
    es', t := es + [Event(who, ok)], StepOf(cfg, s, Event(who, ok)).value;
    Runs.PlayAppend(MachineOf(cfg), Semns.Init(cfg), es, Event(who, ok));
  }

  lemma GoToFork(cfg: Config) returns (es: seq<Event>, s: State)
    ensures ReachesWith(cfg, es, s)
    ensures s.f.FatherCloseWrite? && s.c.ChildCloseRead? && s.sem == Some(0) && s.fatherInNs
    ensures s.fatherAdj == if cfg.undo then 1 else 0
  {
    es, s := [], Semns.Init(cfg);
    es, s := GoWith(cfg, es, s, Father, true);
    es, s := GoWith(cfg, es, s, Father, true);
    es, s := GoWith(cfg, es, s, Father, true);
    es, s := GoWith(cfg, es, s, Father, true);
    es, s := GoWith(cfg, es, s, Father, true);
  }

  /** Without SEM_UNDO, a father whose unshare or V fails ends with the lock, and leaves the child in its P
      for ever. */
  lemma ChildLeftBlocked(cfg: Config) returns (es: seq<Event>, s: State)
    requires !cfg.undo
    ensures ReachesWith(cfg, es, s) && s.f == FatherExited(1) && s.c.ChildLock? && Blocked(s)
  {
    es, s := GoToFork(cfg);
    FailReachableInv(cfg, es, s);
    es, s := GoWith(cfg, es, s, Father, true);
    es, s := GoWith(cfg, es, s, Child, true);
    es, s := GoWith(cfg, es, s, Child, true);
    FailReachableInv(cfg, es, s);
    Ends(s);
    es, s := GoWith(cfg, es, s, Child, true);
    FailReachableInv(cfg, es, s);
    es, s := GoWith(cfg, es, s, Father, true);
    es, s := GoWith(cfg, es, s, Father, false);
  }
}
