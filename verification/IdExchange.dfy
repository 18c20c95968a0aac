/** getnsids.c after fork: the father and the child around one stream connection, in every interleaving.

    The kernel delivers the ids of an SCM_CREDENTIALS message as the receiver's namespaces see them, and
    one write of a struct ucred as a whole.  The father has closed its copy of the server socket. */
module IdExchange {
  import opened Runs
  import opened GetNsIds

  /** `translated` is what the child's namespaces make of `sent`. */
  datatype Config = Config(sent: Ids, translated: Ids)

  datatype Proc = Father | Child

  datatype FatherPc =
    | Connect | Send | ReadBack | CloseConn | WaitChild
    | ErrClose | ErrWait                       // the label err
    | FatherDone(rc: int)

  datatype ChildPc =
    | Select | Accept | SetOption | Receive | WriteBack
    | CloseAll(rc: int)                        // the label err of child_getids
    | ChildExited(status: int)

  datatype ReadOutcome = NotRead | ReadFailed | ReadNothing | ReadIds

  /** `connected` once connect has succeeded; `fatherEnd` and `childEnd` say which ends of the connection
      are open, the child's from accept on; `toChild` and `toFather` what has been written and not
      read.  `creds` are the child's ucreds, `out` the father's. */
  datatype State = State(
    f: FatherPc, c: ChildPc, connected: bool, fatherEnd: bool, childEnd: bool,
    toChild: Option<Ids>, toFather: Option<Ids>, creds: Ids, out: Ids,
    sentOk: bool, wrote: bool, read: ReadOutcome,
    waited: bool)     // waitpid has returned the child

  /** `junk` is what a receive at end-of-file may leave in the child's ucreds. */
  datatype Event = Event(who: Proc, ok: bool, junk: Ids)

  function Init(cfg: Config): State {
    State(Connect, Select, false, false, false, None, None, cfg.sent, cfg.sent, false, false, NotRead, false)
  }

  function FatherRank(pc: FatherPc): nat {
    match pc
    case Connect => 7
    case Send => 6
    case ReadBack => 5
    case CloseConn => 4
    case WaitChild => 3
    case ErrClose => 2
    case ErrWait => 1
    case FatherDone(_) => 0
  }

  function ChildRank(pc: ChildPc): nat {
    match pc
    case Select => 6
    case Accept => 5
    case SetOption => 4
    case Receive => 3
    case WriteBack => 2
    case CloseAll(_) => 1
    case ChildExited(_) => 0
  }

  /** The child can still write to the father: it has the connection, or has yet to accept it. */
  predicate ChildMayWrite(s: State) {
    s.childEnd || s.c.Select? || s.c.Accept?
  }

  function FatherRead(s: State, ok: bool): Option<State> {
    if !ok then Some(s.(read := ReadFailed, f := ErrClose))
    else if s.toFather.Some? then
      Some(s.(out := s.toFather.value, toFather := None, read := ReadIds, f := CloseConn))
    else if ChildMayWrite(s) then None
    else Some(s.(read := ReadNothing, f := CloseConn))
  }

  function FatherStep(cfg: Config, s: State, ok: bool): (r: Option<State>)
  {
    match s.f
    case Connect =>
      if !ok then Some(s.(f := ErrWait))
      else Some(s.(connected := true, fatherEnd := true, f := Send))
    case Send =>
      if !ok || !ChildMayWrite(s) then Some(s.(f := ErrClose))
      else Some(s.(toChild := Some(cfg.sent), sentOk := true, f := ReadBack))
    case ReadBack => FatherRead(s, ok)
    case CloseConn => Some(s.(fatherEnd := false, f := WaitChild))
    case WaitChild =>
      if !ok then Some(s.(f := FatherDone(-1)))
      else if !s.c.ChildExited? then None
      else Some(s.(waited := true, f := FatherDone(if s.c.status == 0 then 0 else -1)))
    case ErrClose => Some(s.(fatherEnd := false, f := ErrWait))
    case ErrWait =>
      if ok && !s.c.ChildExited? then None else Some(s.(waited := ok, f := FatherDone(-1)))
    case FatherDone(_) => None
  }

  function ChildReceive(cfg: Config, s: State, ok: bool, junk: Ids): Option<State> {
    if s.toChild.Some? then
      if !ok then Some(s.(c := CloseAll(1)))
      else Some(s.(toChild := None, creds := cfg.translated, c := WriteBack))
    else if !ok then Some(s.(c := CloseAll(1)))
    else if s.fatherEnd then None
    else Some(s.(creds := junk, c := WriteBack))
  }

  function ChildWriteBack(s: State, ok: bool): Option<State> {
    if !s.fatherEnd then Some(s.(childEnd := false, c := ChildExited(-13)))      // SIGPIPE
    else if !ok then Some(s.(c := CloseAll(1)))
    else Some(s.(toFather := Some(s.creds), wrote := true, c := CloseAll(0)))
  }

  function ChildStep(cfg: Config, s: State, ok: bool, junk: Ids): (r: Option<State>)
  {
    match s.c
    case Select =>
      if !ok then Some(s.(c := CloseAll(1)))
      else if !s.connected then None
      else Some(s.(c := Accept))
    case Accept => if !ok then Some(s.(c := CloseAll(1))) else Some(s.(childEnd := true, c := SetOption))
    case SetOption => if !ok then Some(s.(c := CloseAll(1))) else Some(s.(c := Receive))
    case Receive => ChildReceive(cfg, s, ok, junk)
    case WriteBack => ChildWriteBack(s, ok)
    case CloseAll(rc) => Some(s.(childEnd := false, c := ChildExited(rc)))
    case ChildExited(_) => None
  }

  function Step(cfg: Config, s: State, e: Event): Option<State> {
    match e.who
    case Father => FatherStep(cfg, s, e.ok)
    case Child => ChildStep(cfg, s, e.ok, e.junk)
  }

  function Machine(cfg: Config): (State, Event) -> Option<State> { (s, e) => Step(cfg, s, e) }

  ghost predicate Reaches(cfg: Config, es: seq<Event>, s: State) {
    Play(Machine(cfg), Init(cfg), es) == Some(s)
  }

  predicate ChildOpen(pc: ChildPc) { pc.SetOption? || pc.Receive? || pc.WriteBack? }

  ghost predicate Inv(cfg: Config, s: State) {
    && (s.f.Connect? ==> !s.connected)
    && (s.f.Send? || s.f.ReadBack? || s.f.CloseConn? || s.f.ErrClose? ==> s.fatherEnd && s.connected)
    && (s.f.WaitChild? || s.f.Connect? || s.f.ErrWait? ==> !s.fatherEnd)
    && (s.f.WaitChild? ==> s.connected)
    && (s.f.FatherDone? ==> !s.fatherEnd && (s.f.rc == 0 || s.f.rc == -1))
    && (s.f.ReadBack? || s.f.CloseConn? || s.f.WaitChild? ==> s.sentOk)
    && (s.sentOk ==> s.connected)
    && (s.f.Connect? || s.f.Send? ==> !s.sentOk)
    && (!s.c.Select? ==> s.connected || s.c == CloseAll(1) || s.c == ChildExited(1))
    && (ChildOpen(s.c) ==> s.childEnd)
    && (s.c.Select? || s.c.Accept? || s.c.ChildExited? ==> !s.childEnd)
    && (s.toChild.Some? ==> s.toChild == Some(cfg.sent) && s.sentOk)
    && (s.sentOk && s.toChild.None? ==> s.c.WriteBack? || s.c.CloseAll? || s.c.ChildExited?)
    && (s.c.WriteBack? && s.sentOk && (s.toChild.None? || s.fatherEnd) ==> s.creds == cfg.translated)
    && (s.c.WriteBack? && s.fatherEnd ==> s.sentOk)
    && (s.c.WriteBack? && s.sentOk ==> s.toChild.None?)
    && (s.wrote ==> s.sentOk && s.creds == cfg.translated && (s.c == CloseAll(0) || s.c == ChildExited(0)))
    && (s.c == CloseAll(0) || s.c == ChildExited(0) ==> s.wrote)
    && (s.toFather.Some? ==> s.wrote && s.toFather.value == cfg.translated)
    && (s.wrote && s.toFather.None? ==> s.read.ReadIds?)
    && (s.read.NotRead? ==> s.out == cfg.sent)
    && (s.f.Connect? || s.f.Send? || s.f.ReadBack? <==>
          s.read.NotRead? && !s.f.ErrClose? && !s.f.ErrWait? && !s.f.FatherDone?)
    && (s.read.ReadIds? ==> s.out == cfg.translated && s.wrote)
    && (s.read.ReadNothing? ==> s.out == cfg.sent && !s.wrote && (s.c.CloseAll? || s.c.ChildExited?))
    && (s.f.CloseConn? || s.f.WaitChild? ==> s.read.ReadIds? || s.read.ReadNothing?)
    && (s.f == FatherDone(0) ==> s.read.ReadIds? && s.c == ChildExited(0) && s.waited)
    && (s.waited ==> s.f.FatherDone? && s.c.ChildExited?)
    && (s.f == FatherDone(-1) && s.waited && (s.read.ReadIds? || s.read.ReadNothing?) ==> s.c != ChildExited(0))
    && (!s.read.NotRead? ==> s.sentOk)
    && (s.f.ErrClose? || s.f.ErrWait? ==> s.read.NotRead? || s.read.ReadFailed?)
    && (s.read.NotRead? && s.sentOk ==> s.f.ReadBack?)
    && (s.read.ReadFailed? ==> s.out == cfg.sent && (s.f.ErrClose? || s.f.ErrWait? || s.f == FatherDone(-1)))
  }

  lemma FatherKeepsInv(cfg: Config, s: State, ok: bool)
    requires Inv(cfg, s) && FatherStep(cfg, s, ok).Some?
    ensures Inv(cfg, FatherStep(cfg, s, ok).value)
  {
  }

  lemma ChildKeepsInv(cfg: Config, s: State, ok: bool, junk: Ids)
    requires Inv(cfg, s) && ChildStep(cfg, s, ok, junk).Some?
    ensures Inv(cfg, ChildStep(cfg, s, ok, junk).value)
  {
  }

  lemma StepKeepsInv(cfg: Config, s: State, e: Event)
    requires Inv(cfg, s) && Step(cfg, s, e).Some?
    ensures Inv(cfg, Step(cfg, s, e).value)
  {
    match e.who
    case Father => FatherKeepsInv(cfg, s, e.ok);
    case Child => ChildKeepsInv(cfg, s, e.ok, e.junk);
  }

  lemma ReachableInv(cfg: Config, es: seq<Event>, s: State)
    requires Reaches(cfg, es, s)
    ensures Inv(cfg, s)
  {
    var step, inv := Machine(cfg), (u: State) => Inv(cfg, u);
    forall u, e | inv(u) && step(u, e).Some? ensures inv(step(u, e).value) {
      StepKeepsInv(cfg, u, e);
    }
    Runs.Invariant(step, inv, Init(cfg), es);
  }

  /** When getnsids returns 0, the values it stored are the ids as the child's namespaces see them,
      although a read of nothing is let through: a status 0 of the child means that it wrote them. */
  lemma ZeroMeansTranslated(cfg: Config, es: seq<Event>, s: State)
    requires Reaches(cfg, es, s)
    ensures s.f == FatherDone(0) ==> s.out == cfg.translated && s.read.ReadIds?
    ensures s.c == ChildExited(0) ==> s.wrote && s.creds == cfg.translated
    ensures s.read.ReadNothing? ==> s.out == cfg.sent && s.f != FatherDone(0) && s.c != ChildExited(0)
  {
    ReachableInv(cfg, es, s);
  }

  // ----- how the exchange ends -----

  function Rank(s: State): nat { FatherRank(s.f) + ChildRank(s.c) }

  lemma FatherNext(cfg: Config, s: State, ok: bool)
    requires FatherStep(cfg, s, ok).Some?
    ensures s.f.Connect? ==> var next := FatherStep(cfg, s, ok).value.f; next.Send? || next.ErrWait?
    ensures s.f.Send? ==> var next := FatherStep(cfg, s, ok).value.f; next.ReadBack? || next.ErrClose?
    ensures s.f.ReadBack? ==> var next := FatherStep(cfg, s, ok).value.f; next.CloseConn? || next.ErrClose?
    ensures s.f.CloseConn? ==> FatherStep(cfg, s, ok).value.f.WaitChild?
    ensures s.f.ErrClose? ==> FatherStep(cfg, s, ok).value.f.ErrWait?
    ensures s.f.WaitChild? || s.f.ErrWait? ==> FatherStep(cfg, s, ok).value.f.FatherDone?
  {
  }

  lemma FatherLowersRank(cfg: Config, s: State, ok: bool)
    requires FatherStep(cfg, s, ok).Some?
    ensures FatherRank(FatherStep(cfg, s, ok).value.f) < FatherRank(s.f)
  {
    FatherNext(cfg, s, ok);
  }

  lemma FatherLeavesChild(cfg: Config, s: State, ok: bool)
    requires FatherStep(cfg, s, ok).Some?
    ensures FatherStep(cfg, s, ok).value.c == s.c
  {
  }

  lemma ChildNext(cfg: Config, s: State, ok: bool, junk: Ids)
    requires ChildStep(cfg, s, ok, junk).Some?
    ensures var next := ChildStep(cfg, s, ok, junk).value.c;
            match s.c
            case Select => next.Accept? || next.CloseAll?
            case Accept => next.SetOption? || next.CloseAll?
            case SetOption => next.Receive? || next.CloseAll?
            case Receive => next.WriteBack? || next.CloseAll?
            case WriteBack => next.CloseAll? || next.ChildExited?
            case _ => next.ChildExited?
  {
  }

  lemma ChildLowersRank(cfg: Config, s: State, ok: bool, junk: Ids)
    requires ChildStep(cfg, s, ok, junk).Some?
    ensures ChildRank(ChildStep(cfg, s, ok, junk).value.c) < ChildRank(s.c)
  {
    ChildNext(cfg, s, ok, junk);
  }

  lemma ChildLeavesFather(cfg: Config, s: State, ok: bool, junk: Ids)
    requires ChildStep(cfg, s, ok, junk).Some?
    ensures ChildStep(cfg, s, ok, junk).value.f == s.f
  {
  }

  lemma BoundedRun(cfg: Config, es: seq<Event>, s: State)
    requires Reaches(cfg, es, s)
    ensures |es| + Rank(s) <= 13
  {
    var step, inv, rank := Machine(cfg), (u: State) => Inv(cfg, u), (u: State) => Rank(u);
    forall u, e | inv(u) && step(u, e).Some?
      ensures inv(step(u, e).value) && rank(step(u, e).value) < rank(u)
    {
      StepKeepsInv(cfg, u, e);
      if e.who.Father? {
        FatherLowersRank(cfg, u, e.ok);
        FatherLeavesChild(cfg, u, e.ok);
      } else {
        ChildLowersRank(cfg, u, e.ok, e.junk);
        ChildLeavesFather(cfg, u, e.ok, e.junk);
      }
    }
    Runs.Bounded(step, inv, rank, Init(cfg), es);
  }

  /** No process has a call that completes without failing. */
  ghost predicate Stuck(cfg: Config, s: State) { forall e: Event :: e.ok ==> Step(cfg, s, e).None? }

  predicate AllEnded(s: State) { s.f.FatherDone? && s.c.ChildExited? }

  /** The child waits for a connection that will never come. */
  predicate ConnectFailed(s: State) { !s.connected && !s.f.Connect? && s.c.Select? }

  lemma Progress(cfg: Config, s: State)
    requires Inv(cfg, s) && !AllEnded(s) && !ConnectFailed(s)
    ensures !Stuck(cfg, s)
  {
    var who :=
      if s.f.Connect? || s.f.Send? || s.f.CloseConn? || s.f.ErrClose? then Father
      else if s.f.ReadBack? && (s.toFather.Some? || !ChildMayWrite(s)) then Father
      else if s.c.ChildExited? then Father
      else Child;
    assert Step(cfg, s, Event(who, true, cfg.sent)).Some?;
  }

  /** Every run is finite, and it ends with both processes ended, except in one case: the father's
      connect failed while the child was waiting for it.  The child then stays in select, and the father
      in the waitpid of its error path. */
  lemma HangsIffConnectFails(cfg: Config, es: seq<Event>, s: State)
    requires Reaches(cfg, es, s)
    ensures |es| <= 13
    ensures Stuck(cfg, s) <==> AllEnded(s) || (ConnectFailed(s) && (s.f.ErrWait? || s.f.FatherDone?))
    ensures ConnectFailed(s) ==> s.f.ErrWait? || s.f.FatherDone?
  {
    BoundedRun(cfg, es, s);
    ReachableInv(cfg, es, s);
    if !AllEnded(s) && !ConnectFailed(s) {
      Progress(cfg, s);
    }
  }

  // ----- runs without failure -----

  function GoodMachine(cfg: Config): (State, Event) -> Option<State> {
    (s: State, e: Event) => if e.ok then Step(cfg, s, e) else None
  }

  ghost predicate GoodInv(s: State) {
    && !s.read.ReadFailed? && !s.read.ReadNothing?
    && !s.f.ErrClose? && !s.f.ErrWait? && s.f != FatherDone(-1)
    && (s.c.CloseAll? ==> s.c.rc == 0) && (s.c.ChildExited? ==> s.c.status == 0)
    && (s.c.WriteBack? ==> s.sentOk)
    && (s.sentOk && s.read.NotRead? ==> s.fatherEnd)
  }

  lemma GoodFatherStep(cfg: Config, s: State)
    requires Inv(cfg, s) && GoodInv(s) && FatherStep(cfg, s, true).Some?
    ensures GoodInv(FatherStep(cfg, s, true).value)
  {
  }

  lemma GoodChildStep(cfg: Config, s: State, junk: Ids)
    requires Inv(cfg, s) && GoodInv(s) && ChildStep(cfg, s, true, junk).Some?
    ensures GoodInv(ChildStep(cfg, s, true, junk).value)
  {
  }

  lemma GoodRunInv(cfg: Config, es: seq<Event>, s: State)
    requires Play(GoodMachine(cfg), Init(cfg), es) == Some(s)
    ensures Inv(cfg, s) && GoodInv(s)
  {
    var step, inv := GoodMachine(cfg), (u: State) => Inv(cfg, u) && GoodInv(u);
    forall u, e | inv(u) && step(u, e).Some? ensures inv(step(u, e).value) {
      StepKeepsInv(cfg, u, e);
      match e.who {
        case Father => GoodFatherStep(cfg, u);
        case Child => GoodChildStep(cfg, u, e.junk);
      }
    }
    Runs.Invariant(step, inv, Init(cfg), es);
  }

  /** When no call fails, every interleaving ends in the same way: the child exits with 0, and the father
      has read the translated ids, has waited for the child and returns 0. */
  lemma GoodRun(cfg: Config, es: seq<Event>, s: State)
    requires Play(GoodMachine(cfg), Init(cfg), es) == Some(s)
    ensures Stuck(cfg, s) <==>
              s.f == FatherDone(0) && s.c == ChildExited(0) && s.read.ReadIds? && s.out == cfg.translated && s.waited
    ensures s.f.FatherDone? ==> s.f == FatherDone(0) && s.out == cfg.translated
  {
    GoodRunInv(cfg, es, s);
    if !AllEnded(s) {
      Progress(cfg, s);
    }
  }

  // ----- failed calls of the child -----

  /** select, accept, setsockopt, recvmsg, or write to a father that can read, fails. */
  predicate ChildCallFails(s: State, e: Event) {
    && e.who.Child? && !e.ok
    && (s.c.Select? || s.c.Accept? || s.c.SetOption? || s.c.Receive? || (s.c.WriteBack? && s.fatherEnd))
  }

  predicate ChildFailed(s: State) { s.c == CloseAll(1) || s.c == ChildExited(1) }

  lemma ChildFailsStep(cfg: Config, s: State, e: Event)
    requires Inv(cfg, s) && Step(cfg, s, e).Some?
    ensures ChildFailed(Step(cfg, s, e).value) <==> ChildFailed(s) || ChildCallFails(s, e)
  {
  }

  /** The child's status is 1 exactly when one of its calls has failed; then it writes nothing, and the
      father does not return 0. */
  lemma ChildStatusOneIff(cfg: Config, es: seq<Event>, s: State)
    requires Reaches(cfg, es, s)
    ensures ChildFailed(s) <==>
            Runs.Occurs(Machine(cfg), (u: State, e: Event) => ChildCallFails(u, e), Init(cfg), es)
    ensures ChildFailed(s) ==> !s.wrote && s.f != FatherDone(0)
  {
    var step, inv := Machine(cfg), (u: State) => Inv(cfg, u);
    var fails, failed := (u: State, e: Event) => ChildCallFails(u, e), (u: State) => ChildFailed(u);
    forall u, e | inv(u) && step(u, e).Some?
      ensures inv(step(u, e).value) && (failed(step(u, e).value) <==> failed(u) || fails(u, e))
    {
      StepKeepsInv(cfg, u, e);
      ChildFailsStep(cfg, u, e);
    }
    Runs.OccursIff(step, inv, fails, failed, Init(cfg), es);
    ReachableInv(cfg, es, s);
  }

  // ----- failed calls of the father -----

  /** connect, the send (also when nobody is left to receive), read or waitpid fails. */
  predicate FatherCallFails(s: State, e: Event) {
    && e.who.Father?
    && match s.f
       case Send => !e.ok || !ChildMayWrite(s)
       case Connect => !e.ok
       case ReadBack => !e.ok
       case WaitChild => !e.ok
       case _ => false
  }

  predicate FatherFailed(s: State) {
    s.f.ErrClose? || s.f.ErrWait? || (s.f == FatherDone(-1) && !(s.sentOk && !s.read.ReadFailed? && s.waited))
  }

  predicate WaitCallFails(s: State, e: Event) { e.who.Father? && !e.ok && (s.f.WaitChild? || s.f.ErrWait?) }

  lemma FatherFailsStep(cfg: Config, s: State, ok: bool)
    requires Inv(cfg, s) && FatherStep(cfg, s, ok).Some?
    ensures var t := FatherStep(cfg, s, ok).value;
            && (FatherFailed(t) <==> FatherFailed(s) || FatherCallFails(s, Event(Father, ok, cfg.sent)))
            && (t.f.FatherDone? && !t.waited <==> WaitCallFails(s, Event(Father, ok, cfg.sent)))
  {
  }

  /** The father returns 0 exactly when none of its calls has failed and the child's status is 0; and it
      has waited for the child exactly when waitpid, which it calls once, has not failed. */
  lemma ReturnsZeroIff(cfg: Config, es: seq<Event>, s: State)
    requires Reaches(cfg, es, s) && s.f.FatherDone?
    ensures s.f == FatherDone(0) <==>
            && !Runs.Occurs(Machine(cfg), (u: State, e: Event) => FatherCallFails(u, e), Init(cfg), es)
            && s.c == ChildExited(0)
    ensures s.waited <==> !Runs.Occurs(Machine(cfg), (u: State, e: Event) => WaitCallFails(u, e), Init(cfg), es)
    ensures s.waited ==> s.c.ChildExited?
  {
    var step, inv := Machine(cfg), (u: State) => Inv(cfg, u);
    var fails, failed := (u: State, e: Event) => FatherCallFails(u, e), (u: State) => FatherFailed(u);
    var waitFails, unwaited := (u: State, e: Event) => WaitCallFails(u, e), (u: State) => u.f.FatherDone? && !u.waited;
    forall u, e | inv(u) && step(u, e).Some?
      ensures inv(step(u, e).value)
      ensures failed(step(u, e).value) <==> failed(u) || fails(u, e)
      ensures unwaited(step(u, e).value) <==> unwaited(u) || waitFails(u, e)
    {
      StepKeepsInv(cfg, u, e);
      if e.who.Father? {
        FatherFailsStep(cfg, u, e.ok);
      } else {
        ChildLeavesRest(cfg, u, e.ok, e.junk);
      }
    }
    Runs.OccursIff(step, inv, fails, failed, Init(cfg), es);
    Runs.OccursIff(step, inv, waitFails, unwaited, Init(cfg), es);
    ReachableInv(cfg, es, s);
  }

  lemma ChildLeavesRest(cfg: Config, s: State, ok: bool, junk: Ids)
    requires ChildStep(cfg, s, ok, junk).Some?
    ensures var t := ChildStep(cfg, s, ok, junk).value;
            t.f == s.f && t.sentOk == s.sentOk && t.read == s.read && t.waited == s.waited
  {
  }

  /** One failed call is enough: from then on nothing can happen any more. */
  lemma ConnectFailureHangs(cfg: Config) returns (es: seq<Event>, s: State)
    ensures Reaches(cfg, es, s)
    ensures es == [Event(Father, false, cfg.sent)] && ConnectFailed(s) && s.f.ErrWait? && Stuck(cfg, s)
  {
    var e := Event(Father, false, cfg.sent);
    es, s := [e], Step(cfg, Init(cfg), e).value;
    assert Play(Machine(cfg), Init(cfg), []) == Some(Init(cfg));
    Runs.PlayAppend(Machine(cfg), Init(cfg), [], e);
    assert [] + [e] == [e];
  }

  // ----- the two models of the father agree -----

  /** What the father's calls have returned in a run that is over, as the code of getnsids sees it. */
  function CallsOf(s: State): Calls
    requires s.f.FatherDone?
  {
    var fine := SocketCalls(true, true, true, true, true, true);
    var entered := NsCalls(false, 1, true, true, true);
    Calls(true, fine, entered, entered, 1,
          fine.(connectOk := s.connected), s.sentOk,
          (match s.read
           case ReadIds => Whole(s.out)
           case ReadNothing => Nothing
           case _ => ReadError),
          if s.waited then 1 else -1,
          if s.c.ChildExited? then s.c.status else 0,
          s.waited)
  }

  /** In every interleaving the father's result, the values it stores and whether it has waited for the
      child are those of GetNsIds on what its calls returned. */
  lemma RunsMatchCode(cfg: Config, es: seq<Event>, s: State)
    requires Reaches(cfg, es, s) && s.f.FatherDone?
    ensures s.f.rc == Verdict(CallsOf(s))
    ensures s.out == if !Stores(CallsOf(s)) then cfg.sent
                     else if CallsOf(s).read.Whole? then CallsOf(s).read.ids else cfg.sent
    ensures s.waited <==> !WaitFails(CallsOf(s))
  {
    ReachableInv(cfg, es, s);
  }
}
