/** shns3.c main: a father and two children around the pipes sync1 and sync2.

    Child1 maps the ids of child2 once the father has sent it child2's pid on sync1; child2 executes
    the shell once the father has sent it a token on sync2.  Every system call that the source checks
    may fail; the father then returns, which closes its ends of the pipes. */
module Shns3 {
  import opened Runs
  import opened Pipes
  import opened CmdLine
  import Text

  const SYNC1: nat := 1
  const SYNC2: nat := 2

  /** `user` says whether the user namespace is selected; main refuses to run it without maps. */
  datatype Config = Config(user: bool, umap: seq<string>, gmap: seq<string>)

  datatype Proc = Father | Child1 | Child2

  /** The call each process is about to make. */
  datatype FatherPc =
    | OpenSync1 | ForkChild1 | OpenSync2 | Unshare | ForkChild2
    | CloseRead2 | CloseRead1 | WriteSync1 | WaitChild1 | CloseWrite1
    | CloseRead2Again | WriteSync2 | WaitChild2
    | FatherExited(status: int)

  datatype Child1Pc =
    | Child1NotForked | Child1CloseWrite | Child1Read | Child1CloseRead
    | MakeUidLine | RunUidLine | MakeGidLine | RunGidLine
    | Child1Exited(status1: int)

  datatype Child2Pc =
    | Child2NotForked | Child2CloseWrite | Child2Read | Child2CloseRead | Execve | Shell
    | Child2Exited(status2: int)

  /** What the one read of a child returned. */
  datatype Received = NotYet | Value(value: int) | EndOfFile | ReadError

  datatype Tool = NewUidMap | NewGidMap

  /** A command run by child1, the pid it was run on, and whether it ended with status 0. */
  datatype Command = Command(tool: Tool, pid: int, ok: bool)

  /** The text given to system() for a command. */
  function CommandLine(cfg: Config, c: Command): string {
    match c.tool
    case NewUidMap => Line("newuidmap", c.pid, cfg.umap)
    case NewGidMap => Line("newgidmap", c.pid, cfg.gmap)
  }

  datatype State = State(
    kernel: Kernel<Proc>,
    f: FatherPc, c1: Child1Pc, c2: Child2Pc,
    pid2: int,              // the father's variable child2
    mapPid: int,            // child1's variable child2, indeterminate until it is read
    got1: Received, got2: Received,
    ran: seq<Command>,      // the commands child1 has run
    wrote1: bool, wrote2: bool,
    reaped: set<Proc>,
    inNew: set<Proc>)       // the processes in the new namespaces

  /** A process makes its next call.  `ok` says whether the call succeeds; `val` is what the kernel
      or an indeterminate variable supplies (a pid, an exit status). */
  datatype Event = Event(who: Proc, ok: bool, val: int)

  function Init(cfg: Config): State {
    State(Kernel(map[Father := {}], map[]),
          if cfg.user then OpenSync1 else OpenSync2, Child1NotForked, Child2NotForked,
          0, 0, NotYet, NotYet, [], false, false, {}, {})
  }

  // how far each process has got

  function FatherRank(pc: FatherPc): nat {
    match pc
    case OpenSync1 => 13
    case ForkChild1 => 12
    case OpenSync2 => 11
    case Unshare => 10
    case ForkChild2 => 9
    case CloseRead2 => 8
    case CloseRead1 => 7
    case WriteSync1 => 6
    case WaitChild1 => 5
    case CloseWrite1 => 4
    case CloseRead2Again => 3
    case WriteSync2 => 2
    case WaitChild2 => 1
    case FatherExited(_) => 0
  }

  function Child1Rank(pc: Child1Pc): nat {
    match pc
    case Child1NotForked => 8
    case Child1CloseWrite => 7
    case Child1Read => 6
    case Child1CloseRead => 5
    case MakeUidLine => 4
    case RunUidLine => 3
    case MakeGidLine => 2
    case RunGidLine => 1
    case Child1Exited(_) => 0
  }

  function Child2Rank(pc: Child2Pc): nat {
    match pc
    case Child2NotForked => 6
    case Child2CloseWrite => 5
    case Child2Read => 4
    case Child2CloseRead => 3
    case Execve => 2
    case Shell => 1
    case Child2Exited(_) => 0
  }

  function FatherExit(s: State, status: int): State {
    s.(kernel := Exit(s.kernel, Father), f := FatherExited(status))
  }

  function Child1Exit(s: State, status: int): State {
    s.(kernel := Exit(s.kernel, Child1), c1 := Child1Exited(status))
  }

  function Child2Exit(s: State, status: int): State {
    s.(kernel := Exit(s.kernel, Child2), c2 := Child2Exited(status))
  }

  /** A forked child is in the namespaces of its father. */
  function Inherit(inNew: set<Proc>, child: Proc): set<Proc> {
    if Father in inNew then inNew + {child} else inNew
  }

  /** Status of a process ended by SIGPIPE. */
  const SIGPIPE_STATUS := -13

  function FatherStep(cfg: Config, s: State, ok: bool, val: int): Option<State> {
    match s.f
    case OpenSync1 =>
      if !ok then Some(FatherExit(s, 1))
      else Some(s.(kernel := Open(s.kernel, Father, SYNC1), f := ForkChild1))
    case ForkChild1 =>
      if !ok then Some(FatherExit(s, 1))
      else Some(s.(kernel := Fork(s.kernel, Father, Child1), inNew := Inherit(s.inNew, Child1),
                   c1 := Child1CloseWrite, f := OpenSync2))
    case OpenSync2 =>
      if !ok then Some(FatherExit(s, 1))
      else Some(s.(kernel := Open(s.kernel, Father, SYNC2), f := Unshare))
    case Unshare =>
      if !ok then Some(FatherExit(s, 1)) else Some(s.(inNew := s.inNew + {Father}, f := ForkChild2))
    case ForkChild2 =>
      if !ok then Some(FatherExit(s, 1))
      else if val <= 0 then None
      else Some(s.(kernel := Fork(s.kernel, Father, Child2), inNew := Inherit(s.inNew, Child2),
                   c2 := Child2CloseWrite, pid2 := val, f := CloseRead2))
    case CloseRead2 =>
      Some(s.(kernel := Close(s.kernel, Father, Rd(SYNC2)), f := if cfg.user then CloseRead1 else CloseRead2Again))
    case CloseRead1 =>
      Some(s.(kernel := Close(s.kernel, Father, Rd(SYNC1)), f := WriteSync1))
    case WriteSync1 =>
      if !HasReader(s.kernel, SYNC1) then Some(FatherExit(s, SIGPIPE_STATUS))
      else if !ok then Some(FatherExit(s, 1))
      else Some(s.(kernel := Write(s.kernel, SYNC1, s.pid2), wrote1 := true, f := WaitChild1))
    case WaitChild1 =>
      if !ok then Some(FatherExit(s, 1))
      else if !s.c1.Child1Exited? then None
      else Some(s.(reaped := s.reaped + {Child1}, f := CloseWrite1))
    case CloseWrite1 =>
      Some(s.(kernel := Close(s.kernel, Father, Wr(SYNC1)), f := CloseRead2Again))
    case CloseRead2Again =>
      Some(s.(kernel := Close(s.kernel, Father, Rd(SYNC2)), f := WriteSync2))
    case WriteSync2 =>
      if !HasReader(s.kernel, SYNC2) then Some(FatherExit(s, SIGPIPE_STATUS))
      else if !ok then Some(FatherExit(s, 1))
      else Some(s.(kernel := Write(s.kernel, SYNC2, 'y' as int), wrote2 := true, f := WaitChild2))
    case WaitChild2 =>
      if !ok then Some(FatherExit(s, 1))
      else if !s.c2.Child2Exited? then None
      else Some(FatherExit(s.(reaped := s.reaped + {Child2}), 0))
    case FatherExited(_) => None
  }

  function Child1Step(s: State, ok: bool, val: int): (r: Option<State>)
    ensures r.Some? ==>
              var t := r.value;
              && Child1Rank(t.c1) < Child1Rank(s.c1)
              && t.f == s.f && t.c2 == s.c2 && t.pid2 == s.pid2 && t.got2 == s.got2
              && t.wrote1 == s.wrote1 && t.wrote2 == s.wrote2 && t.reaped == s.reaped && t.inNew == s.inNew
  {
    match s.c1
    case Child1CloseWrite =>
      Some(s.(kernel := Close(s.kernel, Child1, Wr(SYNC1)), c1 := Child1Read))
    case Child1Read =>
      if !ok then Some(Child1Exit(s.(got1 := ReadError), 1))
      else (
        match Pipes.Read(s.kernel, SYNC1)
        case Blocked => None
        case Eof => Some(s.(got1 := EndOfFile, mapPid := val, c1 := Child1CloseRead))
        case Got(v) => Some(s.(kernel := Take(s.kernel, SYNC1), got1 := Value(v), mapPid := v, c1 := Child1CloseRead)))
    case Child1CloseRead =>
      Some(s.(kernel := Close(s.kernel, Child1, Rd(SYNC1)), c1 := MakeUidLine))
    case MakeUidLine =>
      if !ok then Some(Child1Exit(s, 1)) else Some(s.(c1 := RunUidLine))
    case RunUidLine =>
      var t := s.(ran := s.ran + [Command(NewUidMap, s.mapPid, ok)]);
      if !ok then Some(Child1Exit(t, 1)) else Some(t.(c1 := MakeGidLine))
    case MakeGidLine =>
      if !ok then Some(Child1Exit(s, 1)) else Some(s.(c1 := RunGidLine))
    case RunGidLine =>
      var t := s.(ran := s.ran + [Command(NewGidMap, s.mapPid, ok)]);
      Some(Child1Exit(t, if ok then 0 else 1))
    case Child1NotForked => None
    case Child1Exited(_) => None
  }

  function Child2Step(s: State, ok: bool, val: int): (r: Option<State>)
    ensures r.Some? ==>
              var t := r.value;
              && Child2Rank(t.c2) < Child2Rank(s.c2)
              && t.f == s.f && t.c1 == s.c1 && t.pid2 == s.pid2 && t.mapPid == s.mapPid && t.got1 == s.got1
              && t.ran == s.ran && t.wrote1 == s.wrote1 && t.wrote2 == s.wrote2 && t.reaped == s.reaped
              && t.inNew == s.inNew
  {
    match s.c2
    case Child2CloseWrite =>
      Some(s.(kernel := Close(s.kernel, Child2, Wr(SYNC2)), c2 := Child2Read))
    case Child2Read =>
      if !ok then Some(Child2Exit(s.(got2 := ReadError), 1))
      else (
        match Pipes.Read(s.kernel, SYNC2)
        case Blocked => None
        case Eof => Some(s.(got2 := EndOfFile, c2 := Child2CloseRead))
        case Got(v) => Some(s.(kernel := Take(s.kernel, SYNC2), got2 := Value(v), c2 := Child2CloseRead)))
    case Child2CloseRead =>
      Some(s.(kernel := Close(s.kernel, Child2, Rd(SYNC2)), c2 := Execve))
    case Execve =>
      if !ok then Some(Child2Exit(s, 1)) else Some(s.(c2 := Shell))
    case Shell => Some(Child2Exit(s, val))
    case Child2NotForked => None
    case Child2Exited(_) => None
  }

  function Step(cfg: Config, s: State, e: Event): Option<State> {
    match e.who
    case Father => FatherStep(cfg, s, e.ok, e.val)
    case Child1 => Child1Step(s, e.ok, e.val)
    case Child2 => Child2Step(s, e.ok, e.val)
  }

  function Machine(cfg: Config): (State, Event) -> Option<State> { (s, e) => Step(cfg, s, e) }

  ghost predicate Reaches(cfg: Config, es: seq<Event>, s: State) {
    Play(Machine(cfg), Init(cfg), es) == Some(s)
  }

  // ----- the invariant -----

  /** The ends the father holds before each of its calls. */
  function FatherEnds(user: bool, pc: FatherPc): set<End> {
    var ends1 := if user then {Rd(SYNC1), Wr(SYNC1)} else {};
    match pc
    case OpenSync1 => {}
    case ForkChild1 => ends1
    case OpenSync2 => ends1
    case Unshare => ends1 + {Rd(SYNC2), Wr(SYNC2)}
    case ForkChild2 => ends1 + {Rd(SYNC2), Wr(SYNC2)}
    case CloseRead2 => ends1 + {Rd(SYNC2), Wr(SYNC2)}
    case CloseRead1 => {Rd(SYNC1), Wr(SYNC1), Wr(SYNC2)}
    case WriteSync1 => {Wr(SYNC1), Wr(SYNC2)}
    case WaitChild1 => {Wr(SYNC1), Wr(SYNC2)}
    case CloseWrite1 => {Wr(SYNC1), Wr(SYNC2)}
    case CloseRead2Again => {Wr(SYNC2)}
    case WriteSync2 => {Wr(SYNC2)}
    case WaitChild2 => {Wr(SYNC2)}
    case FatherExited(_) => {}
  }

  function Child1Ends(pc: Child1Pc): set<End> {
    match pc
    case Child1CloseWrite => {Rd(SYNC1), Wr(SYNC1)}
    case Child1Read => {Rd(SYNC1)}
    case Child1CloseRead => {Rd(SYNC1)}
    case _ => {}
  }

  /** Child2 inherits both ends of sync1 and never closes them. */
  function Child2Ends(user: bool, pc: Child2Pc): set<End> {
    var inherited := if user then {Rd(SYNC1), Wr(SYNC1)} else {};
    match pc
    case Child2NotForked => {}
    case Child2CloseWrite => inherited + {Rd(SYNC2), Wr(SYNC2)}
    case Child2Read => inherited + {Rd(SYNC2)}
    case Child2CloseRead => inherited + {Rd(SYNC2)}
    case Execve => inherited
    case Shell => inherited
    case Child2Exited(_) => {}
  }

  predicate BeforeChild1(pc: FatherPc) { pc.OpenSync1? || pc.ForkChild1? }

  predicate BeforeChild2(pc: FatherPc) {
    BeforeChild1(pc) || pc.OpenSync2? || pc.Unshare? || pc.ForkChild2?
  }

  predicate AfterWrite1(pc: FatherPc) {
    pc.WaitChild1? || pc.CloseWrite1? || pc.CloseRead2Again? || pc.WriteSync2? || pc.WaitChild2?
  }

  predicate AfterWait1(pc: FatherPc) {
    pc.CloseWrite1? || pc.CloseRead2Again? || pc.WriteSync2? || pc.WaitChild2?
  }

  ghost predicate EndsInv(cfg: Config, s: State) {
    && Fds(s.kernel, Father) == FatherEnds(cfg.user, s.f)
    && Fds(s.kernel, Child1) == Child1Ends(s.c1)
    && Fds(s.kernel, Child2) == Child2Ends(cfg.user, s.c2)
  }

  ghost predicate FatherInv(cfg: Config, s: State) {
    && (cfg.user ||
          (s.c1.Child1NotForked? && !BeforeChild1(s.f)
           && !s.f.CloseRead1? && !s.f.WriteSync1? && !s.f.WaitChild1? && !s.f.CloseWrite1?))
    && (!s.f.FatherExited? && cfg.user ==> (s.c1.Child1NotForked? <==> BeforeChild1(s.f)))
    && (!s.f.FatherExited? ==> (s.c2.Child2NotForked? <==> BeforeChild2(s.f)))
    && (!s.f.FatherExited? && cfg.user ==> (s.wrote1 <==> AfterWrite1(s.f)))
    && (!s.f.FatherExited? && cfg.user ==> (Child1 in s.reaped <==> AfterWait1(s.f)))
    && (!s.f.FatherExited? ==> (s.wrote2 <==> s.f.WaitChild2?) && Child2 !in s.reaped)
    && (s.wrote1 ==> cfg.user)
    && (s.wrote2 ==> !s.c2.Child2NotForked? && (cfg.user ==> s.wrote1 && Child1 in s.reaped))
    && (Child1 in s.reaped ==> s.c1.Child1Exited?)
    && (s.wrote1 ==> s.pid2 > 0 && !s.c1.Child1NotForked?)
    && (!s.c2.Child2NotForked? ==> s.pid2 > 0)
    && (s.f == FatherExited(0) ==> s.wrote2 && s.c2.Child2Exited? && Child2 in s.reaped)
  }

  ghost predicate Child1Inv(s: State) {
    && Buf(s.kernel, SYNC1) == (if s.wrote1 && !s.got1.Value? then [s.pid2] else [])
    && (s.got1.NotYet? <==> s.c1.Child1NotForked? || s.c1.Child1CloseWrite? || s.c1.Child1Read?)
    && (s.got1.Value? ==> s.wrote1 && s.got1.value == s.pid2 == s.mapPid)
    && (s.got1.EndOfFile? ==> s.f.FatherExited? && !s.wrote1)
    && (s.got1.ReadError? ==> s.c1 == Child1Exited(1) && |s.ran| == 0)
    && |s.ran| <= 2
    && (|s.ran| >= 1 ==> s.ran[0].tool.NewUidMap? && s.ran[0].pid == s.mapPid)
    && (|s.ran| == 2 ==> s.ran[0].ok && s.ran[1].tool.NewGidMap? && s.ran[1].pid == s.mapPid)
    && (match s.c1
        case MakeGidLine => |s.ran| == 1 && s.ran[0].ok
        case RunGidLine => |s.ran| == 1 && s.ran[0].ok
        case Child1Exited(status) =>
          && (status == 0 || status == 1)
          && (status == 0 <==> |s.ran| == 2 && s.ran[1].ok)
          && (status == 0 ==> s.got1.Value? || s.got1.EndOfFile?)
        case _ => s.ran == [])
  }

  ghost predicate Child2Inv(s: State) {
    && Buf(s.kernel, SYNC2) == (if s.wrote2 && !s.got2.Value? then ['y' as int] else [])
    && (s.got2.NotYet? <==> s.c2.Child2NotForked? || s.c2.Child2CloseWrite? || s.c2.Child2Read?)
    && (s.got2.Value? ==> s.wrote2 && s.got2.value == 'y' as int)
    && (s.got2.EndOfFile? ==> s.f.FatherExited? && !s.wrote2)
    && (s.got2.ReadError? ==> s.c2 == Child2Exited(1))
  }

  predicate BeforeUnshare(pc: FatherPc) { BeforeChild1(pc) || pc.OpenSync2? || pc.Unshare? }

  ghost predicate NamespaceInv(s: State) {
    && (!s.f.FatherExited? ==> (Father in s.inNew <==> !BeforeUnshare(s.f)))
    && Child1 !in s.inNew
    && (Child2 in s.inNew <==> !s.c2.Child2NotForked?)
    && (Child2 in s.inNew ==> Father in s.inNew)
  }

  ghost predicate Inv(cfg: Config, s: State) {
    EndsInv(cfg, s) && FatherInv(cfg, s) && Child1Inv(s) && Child2Inv(s) && NamespaceInv(s)
  }

  lemma Holders(s: State, pipe: nat)
    ensures HasWriter(s.kernel, pipe) <==>
              Wr(pipe) in Fds(s.kernel, Father) + Fds(s.kernel, Child1) + Fds(s.kernel, Child2)
    ensures HasReader(s.kernel, pipe) <==>
              Rd(pipe) in Fds(s.kernel, Father) + Fds(s.kernel, Child1) + Fds(s.kernel, Child2)
  {
    var all := Fds(s.kernel, Father) + Fds(s.kernel, Child1) + Fds(s.kernel, Child2);
    if HasWriter(s.kernel, pipe) {
      var p :| p in s.kernel.fds && Wr(pipe) in s.kernel.fds[p];
      assert p == Father || p == Child1 || p == Child2;
    }
    if HasReader(s.kernel, pipe) {
      var p :| p in s.kernel.fds && Rd(pipe) in s.kernel.fds[p];
      assert p == Father || p == Child1 || p == Child2;
    }
    assert forall p :: Fds(s.kernel, p) != {} ==> p in s.kernel.fds;
  }

  lemma InitInv(cfg: Config)
    ensures Inv(cfg, Init(cfg))
  {
  }

  lemma FatherKeepsFather(cfg: Config, s: State, ok: bool, val: int)
    requires FatherInv(cfg, s) && FatherStep(cfg, s, ok, val).Some?
    ensures FatherInv(cfg, FatherStep(cfg, s, ok, val).value)
  {
  }

  lemma FatherKeepsChild1(cfg: Config, s: State, ok: bool, val: int)
    requires FatherInv(cfg, s) && Child1Inv(s) && FatherStep(cfg, s, ok, val).Some?
    ensures Child1Inv(FatherStep(cfg, s, ok, val).value)
  {
  }

  lemma FatherKeepsChild2(cfg: Config, s: State, ok: bool, val: int)
    requires FatherInv(cfg, s) && Child2Inv(s) && FatherStep(cfg, s, ok, val).Some?
    ensures Child2Inv(FatherStep(cfg, s, ok, val).value)
  {
  }

  /** What each process holds after a close, an exit, a pipe, a fork, and a step that moves no end. */
  lemma EndsAfterClose(cfg: Config, s: State, t: State, p: Proc, e: End)
    requires EndsInv(cfg, s) && t.kernel == Close(s.kernel, p, e)
    requires FatherEnds(cfg.user, t.f) == FatherEnds(cfg.user, s.f) - (if p == Father then {e} else {})
    requires Child1Ends(t.c1) == Child1Ends(s.c1) - (if p == Child1 then {e} else {})
    requires Child2Ends(cfg.user, t.c2) == Child2Ends(cfg.user, s.c2) - (if p == Child2 then {e} else {})
    ensures EndsInv(cfg, t)
  {
    CloseEnds(s.kernel, p, e);
  }

  lemma EndsAfterExit(cfg: Config, s: State, t: State, p: Proc)
    requires EndsInv(cfg, s) && t.kernel == Exit(s.kernel, p)
    requires if p == Father then t.f.FatherExited? else t.f == s.f
    requires if p == Child1 then t.c1.Child1Exited? else t.c1 == s.c1
    requires if p == Child2 then t.c2.Child2Exited? else t.c2 == s.c2
    ensures EndsInv(cfg, t)
  {
  }

  lemma EndsAfterOpen(cfg: Config, s: State, t: State, pipe: nat)
    requires EndsInv(cfg, s) && t.kernel == Open(s.kernel, Father, pipe)
    requires FatherEnds(cfg.user, t.f) == FatherEnds(cfg.user, s.f) + {Rd(pipe), Wr(pipe)}
    requires t.c1 == s.c1 && t.c2 == s.c2
    ensures EndsInv(cfg, t)
  {
  }

  lemma EndsAfterFork(cfg: Config, s: State, t: State, child: Proc)
    requires EndsInv(cfg, s) && child != Father && t.kernel == Fork(s.kernel, Father, child)
    requires FatherEnds(cfg.user, t.f) == FatherEnds(cfg.user, s.f)
    requires if child == Child1 then Child1Ends(t.c1) == FatherEnds(cfg.user, s.f) else t.c1 == s.c1
    requires if child == Child2 then Child2Ends(cfg.user, t.c2) == FatherEnds(cfg.user, s.f) else t.c2 == s.c2
    ensures EndsInv(cfg, t)
  {
  }

  lemma EndsUnmoved(cfg: Config, s: State, t: State)
    requires EndsInv(cfg, s) && t.kernel.fds == s.kernel.fds
    requires FatherEnds(cfg.user, t.f) == FatherEnds(cfg.user, s.f)
    requires Child1Ends(t.c1) == Child1Ends(s.c1) && Child2Ends(cfg.user, t.c2) == Child2Ends(cfg.user, s.c2)
    ensures EndsInv(cfg, t)
  {
  }

  /** The end the father closes at a call. */
  function FatherCloses(pc: FatherPc): Option<End> {
    match pc
    case CloseRead2 => Some(Rd(SYNC2))
    case CloseRead1 => Some(Rd(SYNC1))
    case CloseWrite1 => Some(Wr(SYNC1))
    case CloseRead2Again => Some(Rd(SYNC2))
    case _ => None
  }

  lemma FatherClosing(cfg: Config, s: State, ok: bool, val: int)
    requires EndsInv(cfg, s) && FatherInv(cfg, s) && FatherCloses(s.f).Some?
    ensures FatherStep(cfg, s, ok, val).Some? && EndsInv(cfg, FatherStep(cfg, s, ok, val).value)
  {
    EndsAfterClose(cfg, s, FatherStep(cfg, s, ok, val).value, Father, FatherCloses(s.f).value);
  }

  lemma FatherForking(cfg: Config, s: State, val: int)
    requires EndsInv(cfg, s) && FatherInv(cfg, s) && FatherStep(cfg, s, true, val).Some?
    requires s.f.ForkChild1? || s.f.ForkChild2?
    ensures EndsInv(cfg, FatherStep(cfg, s, true, val).value)
  {
    EndsAfterFork(cfg, s, FatherStep(cfg, s, true, val).value, if s.f.ForkChild1? then Child1 else Child2);
  }

  /** At the other calls the father opens a pipe, ends, or leaves its ends alone. */
  lemma FatherElsewhere(cfg: Config, s: State, ok: bool, val: int)
    requires EndsInv(cfg, s) && FatherInv(cfg, s) && FatherStep(cfg, s, ok, val).Some?
    requires FatherCloses(s.f).None? && !(ok && (s.f.ForkChild1? || s.f.ForkChild2?))
    ensures EndsInv(cfg, FatherStep(cfg, s, ok, val).value)
  {
    var t := FatherStep(cfg, s, ok, val).value;
    if t.f.FatherExited? {
      EndsAfterExit(cfg, s, t, Father);
    } else if s.f.OpenSync1? || s.f.OpenSync2? {
      EndsAfterOpen(cfg, s, t, if s.f.OpenSync1? then SYNC1 else SYNC2);
    } else {
      EndsUnmoved(cfg, s, t);
    }
  }

  lemma FatherKeepsEnds(cfg: Config, s: State, ok: bool, val: int)
    requires EndsInv(cfg, s) && FatherInv(cfg, s) && FatherStep(cfg, s, ok, val).Some?
    ensures EndsInv(cfg, FatherStep(cfg, s, ok, val).value)
  {
    if FatherCloses(s.f).Some? {
      FatherClosing(cfg, s, ok, val);
    } else if ok && (s.f.ForkChild1? || s.f.ForkChild2?) {
      FatherForking(cfg, s, val);
    } else {
      FatherElsewhere(cfg, s, ok, val);
    }
  }

  lemma Child1KeepsEnds(cfg: Config, s: State, ok: bool, val: int)
    requires EndsInv(cfg, s) && Child1Step(s, ok, val).Some?
    ensures EndsInv(cfg, Child1Step(s, ok, val).value)
  {
    var t := Child1Step(s, ok, val).value;
    if s.c1.Child1CloseWrite? {
      EndsAfterClose(cfg, s, t, Child1, Wr(SYNC1));
    } else if s.c1.Child1CloseRead? {
      EndsAfterClose(cfg, s, t, Child1, Rd(SYNC1));
    } else if t.c1.Child1Exited? {
      EndsAfterExit(cfg, s, t, Child1);
    } else {
      EndsUnmoved(cfg, s, t);
    }
  }

  /** Nobody can write on a pipe whose read returns end-of-file. */
  lemma EofMeansNoWriter(s: State, pipe: nat)
    requires Pipes.Read(s.kernel, pipe).Eof?
    ensures Buf(s.kernel, pipe) == []
    ensures forall p :: Wr(pipe) !in Fds(s.kernel, p)
  {
  }

  lemma Child1KeepsFather(cfg: Config, s: State, ok: bool, val: int)
    requires FatherInv(cfg, s) && Child1Step(s, ok, val).Some?
    ensures FatherInv(cfg, Child1Step(s, ok, val).value)
  {
  }

  lemma Child1KeepsChild1(cfg: Config, s: State, ok: bool, val: int)
    requires EndsInv(cfg, s) && FatherInv(cfg, s) && Child1Inv(s) && Child1Step(s, ok, val).Some?
    ensures Child1Inv(Child1Step(s, ok, val).value)
  {
    if s.c1.Child1Read? && ok {
      if Pipes.Read(s.kernel, SYNC1).Eof? {
        EofMeansNoWriter(s, SYNC1);
        assert s.f.FatherExited? by { assert Wr(SYNC1) !in Fds(s.kernel, Father); }
      }
    }
  }

  lemma Child1KeepsChild2(s: State, ok: bool, val: int)
    requires Child2Inv(s) && Child1Step(s, ok, val).Some?
    ensures Child2Inv(Child1Step(s, ok, val).value)
  {
  }

  lemma Child2KeepsEnds(cfg: Config, s: State, ok: bool, val: int)
    requires EndsInv(cfg, s) && Child2Step(s, ok, val).Some?
    ensures EndsInv(cfg, Child2Step(s, ok, val).value)
  {
    var t := Child2Step(s, ok, val).value;
    if s.c2.Child2CloseWrite? {
      EndsAfterClose(cfg, s, t, Child2, Wr(SYNC2));
    } else if s.c2.Child2CloseRead? {
      EndsAfterClose(cfg, s, t, Child2, Rd(SYNC2));
    } else if t.c2.Child2Exited? {
      EndsAfterExit(cfg, s, t, Child2);
    } else {
      EndsUnmoved(cfg, s, t);
    }
  }

  lemma Child2KeepsFather(cfg: Config, s: State, ok: bool, val: int)
    requires FatherInv(cfg, s) && Child2Step(s, ok, val).Some?
    ensures FatherInv(cfg, Child2Step(s, ok, val).value)
  {
  }

  lemma Child2KeepsChild1(s: State, ok: bool, val: int)
    requires Child1Inv(s) && Child2Step(s, ok, val).Some?
    ensures Child1Inv(Child2Step(s, ok, val).value)
  {
  }

  lemma Child2KeepsChild2(cfg: Config, s: State, ok: bool, val: int)
    requires EndsInv(cfg, s) && FatherInv(cfg, s) && Child2Inv(s) && Child2Step(s, ok, val).Some?
    ensures Child2Inv(Child2Step(s, ok, val).value)
  {
    if s.c2.Child2Read? && ok {
      if Pipes.Read(s.kernel, SYNC2).Eof? {
        EofMeansNoWriter(s, SYNC2);
        assert s.f.FatherExited? by { assert Wr(SYNC2) !in Fds(s.kernel, Father); }
      }
    }
  }

  lemma FatherKeepsNamespaces(cfg: Config, s: State, ok: bool, val: int)
    requires FatherInv(cfg, s) && NamespaceInv(s) && FatherStep(cfg, s, ok, val).Some?
    ensures NamespaceInv(FatherStep(cfg, s, ok, val).value)
  {
  }

  lemma ChildrenKeepNamespaces(s: State, ok: bool, val: int)
    requires NamespaceInv(s)
    ensures Child1Step(s, ok, val).Some? ==> NamespaceInv(Child1Step(s, ok, val).value)
    ensures Child2Step(s, ok, val).Some? ==> NamespaceInv(Child2Step(s, ok, val).value)
  {
  }

  lemma StepKeepsInv(cfg: Config, s: State, e: Event)
    requires Inv(cfg, s) && Step(cfg, s, e).Some?
    ensures Inv(cfg, Step(cfg, s, e).value)
  {
    match e.who
    case Father =>
      FatherKeepsEnds(cfg, s, e.ok, e.val);
      FatherKeepsFather(cfg, s, e.ok, e.val);
      FatherKeepsChild1(cfg, s, e.ok, e.val);
      FatherKeepsChild2(cfg, s, e.ok, e.val);
      FatherKeepsNamespaces(cfg, s, e.ok, e.val);
    case Child1 =>
      Child1KeepsEnds(cfg, s, e.ok, e.val);
      Child1KeepsFather(cfg, s, e.ok, e.val);
      Child1KeepsChild1(cfg, s, e.ok, e.val);
      Child1KeepsChild2(s, e.ok, e.val);
      ChildrenKeepNamespaces(s, e.ok, e.val);
    case Child2 =>
      Child2KeepsEnds(cfg, s, e.ok, e.val);
      Child2KeepsFather(cfg, s, e.ok, e.val);
      Child2KeepsChild1(s, e.ok, e.val);
      Child2KeepsChild2(cfg, s, e.ok, e.val);
      ChildrenKeepNamespaces(s, e.ok, e.val);
  }

  lemma ReachableInv(cfg: Config, es: seq<Event>, s: State)
    requires Reaches(cfg, es, s)
    ensures Inv(cfg, s)
  {
    var step, inv := Machine(cfg), (u: State) => Inv(cfg, u);
    forall u, e | inv(u) && step(u, e).Some? ensures inv(step(u, e).value) {
      StepKeepsInv(cfg, u, e);
    }
    Runs.Invariant(step, inv, Init(cfg), es);
  }

  // ----- every run ends -----

  function Rank(s: State): nat { FatherRank(s.f) + Child1Rank(s.c1) + Child2Rank(s.c2) }

  lemma FatherLowersRank(cfg: Config, s: State, ok: bool, val: int)
    requires FatherInv(cfg, s) && FatherStep(cfg, s, ok, val).Some?
    ensures Rank(FatherStep(cfg, s, ok, val).value) < Rank(s)
  {
  }

  lemma StepLowersRank(cfg: Config, s: State, e: Event)
    requires Inv(cfg, s) && Step(cfg, s, e).Some?
    ensures Rank(Step(cfg, s, e).value) < Rank(s)
  {
    match e.who
    case Father => FatherLowersRank(cfg, s, e.ok, e.val);
    case _ =>
  }

  /** No process has a call that completes: what is left is blocked for good.  Failures are not
      counted as a way out. */
  ghost predicate Stuck(cfg: Config, s: State) {
    forall e: Event :: e.ok ==> Step(cfg, s, e).None?
  }

  predicate AllEnded(s: State) {
    && s.f.FatherExited?
    && (s.c1.Child1NotForked? || s.c1.Child1Exited?)
    && (s.c2.Child2NotForked? || s.c2.Child2Exited?)
  }

  /** Some process can go on, without any failure, until all have ended: child1 in particular is not
      blocked for ever by the write end of sync1 that child2 inherits. */
  lemma NoDeadlock(cfg: Config, s: State)
    requires Inv(cfg, s) && !AllEnded(s)
    ensures !Stuck(cfg, s)
  {
    Holders(s, SYNC1);
    Holders(s, SYNC2);
    var who :=
      if !s.f.FatherExited? && !s.f.WaitChild1? && !s.f.WaitChild2? then Father
      else if s.f.WaitChild1? then (if s.c1.Child1Exited? then Father else Child1)
      else if !s.c2.Child2NotForked? && !s.c2.Child2Exited? then Child2
      else if s.f.WaitChild2? then Father
      else Child1;
    assert Step(cfg, s, Event(who, true, 1)).Some?;
  }

  /** Every run is finite, and it stops only when the father and every child it forked have ended,
      whichever calls failed and however the processes were interleaved. */
  lemma EveryRunEnds(cfg: Config, es: seq<Event>, s: State)
    requires Reaches(cfg, es, s)
    ensures |es| + Rank(s) <= 27
    ensures Stuck(cfg, s) <==> AllEnded(s)
  {
    var step, inv, rank := Machine(cfg), (u: State) => Inv(cfg, u), (u: State) => Rank(u);
    forall u, e | inv(u) && step(u, e).Some?
      ensures inv(step(u, e).value) && rank(step(u, e).value) < rank(u)
    {
      StepKeepsInv(cfg, u, e);
      StepLowersRank(cfg, u, e);
    }
    InitInv(cfg);
    Runs.Bounded(step, inv, rank, Init(cfg), es);
    ReachableInv(cfg, es, s);
    if !AllEnded(s) {
      NoDeadlock(cfg, s);
    }
  }

  // ----- the shell waits for the father -----

  /** Past its read, child2 either has the token, and then child1 has ended and been reaped before the
      father wrote it; or it saw end-of-file, and then the father has ended without writing it.  No
      process but the father can hold the write end of sync2 at that point. */
  lemma ShellWaitsForFather(cfg: Config, es: seq<Event>, s: State)
    requires Reaches(cfg, es, s) && cfg.user
    ensures s.c2.Child2CloseRead? || s.c2.Execve? || s.c2.Shell? ==> s.got2.Value? || s.got2.EndOfFile?
    ensures s.got2.Value? ==> s.wrote2 && s.c1.Child1Exited? && Child1 in s.reaped
    ensures s.got2.EndOfFile? <==> s.f.FatherExited? && !s.wrote2 && !s.got2.NotYet? && !s.got2.ReadError?
    ensures s.got2.Value? || s.got2.EndOfFile? ==>
              forall p :: Wr(SYNC2) in Fds(s.kernel, p) ==> p == Father && !s.f.FatherExited?
  {
    ReachableInv(cfg, es, s);
    forall p | Wr(SYNC2) in Fds(s.kernel, p) && !s.got2.NotYet? ensures p == Father && !s.f.FatherExited? {
      assert p == Father || p == Child1 || p == Child2;
    }
  }

  /** When child2 has the token, both maps are installed, on child2's own pid and in order, exactly
      when the status of child1 is 0: the status waitpid stores and nobody looks at. */
  lemma MapsIffStatusZero(cfg: Config, es: seq<Event>, s: State)
    requires Reaches(cfg, es, s) && cfg.user && s.got2.Value?
    ensures s.c1.Child1Exited?
    ensures s.c1.status1 == 0 <==>
              s.ran == [Command(NewUidMap, s.pid2, true), Command(NewGidMap, s.pid2, true)]
  {
    ReachableInv(cfg, es, s);
  }

  /** A command is run on another pid than child2's only when the father ended before sending it. */
  lemma CommandsNameChild2(cfg: Config, es: seq<Event>, s: State, c: Command)
    requires Reaches(cfg, es, s) && c in s.ran && !(s.f.FatherExited? && !s.wrote1)
    ensures c.pid == s.pid2
  {
    ReachableInv(cfg, es, s);
    assert c == s.ran[0] || c == s.ran[1];
  }

  /** Child2, and with it the shell, is always in the new namespaces, and child1, which has to see the
      ids of the old ones, never; a father that has not got into them has forked no child2. */
  lemma ShellInNewNamespaces(cfg: Config, es: seq<Event>, s: State)
    requires Reaches(cfg, es, s)
    ensures !s.c2.Child2NotForked? ==> Child2 in s.inNew
    ensures s.c2.Execve? || s.c2.Shell? ==> Child2 in s.inNew
    ensures Child1 !in s.inNew
    ensures Father !in s.inNew ==> s.c2.Child2NotForked?
  {
    ReachableInv(cfg, es, s);
  }

  /** The variable child2 of the father holds what its second fork has returned. */
  lemma Pid2IsForked(cfg: Config, es: seq<Event>, s: State, pid: int)
    requires Reaches(cfg, es, s)
    ensures !s.c2.Child2NotForked? && s.pid2 == pid <==>
            Runs.Occurs(Machine(cfg),
                        (u: State, e: Event) => e.who.Father? && u.f.ForkChild2? && e.ok && e.val == pid && pid > 0,
                        Init(cfg), es)
  {
    var step, inv := Machine(cfg), (u: State) => Inv(cfg, u);
    var forks := (u: State, e: Event) => e.who.Father? && u.f.ForkChild2? && e.ok && e.val == pid && pid > 0;
    var mark := (u: State) => !u.c2.Child2NotForked? && u.pid2 == pid;
    forall u, e | inv(u) && step(u, e).Some?
      ensures inv(step(u, e).value) && (mark(step(u, e).value) <==> mark(u) || forks(u, e))
    {
      StepKeepsInv(cfg, u, e);
      PidStep(cfg, u, e);
    }
    InitInv(cfg);
    Runs.OccursIff(step, inv, forks, mark, Init(cfg), es);
  }

  lemma PidStep(cfg: Config, s: State, e: Event)
    requires Inv(cfg, s) && Step(cfg, s, e).Some?
    ensures var t := Step(cfg, s, e).value;
            if e.who.Father? && s.f.ForkChild2? && e.ok then
              s.c2.Child2NotForked? && !t.c2.Child2NotForked? && t.pid2 == e.val > 0
            else (t.c2.Child2NotForked? <==> s.c2.Child2NotForked?) && t.pid2 == s.pid2
  {
  }

  // ----- failed calls -----

  /** A call that the program checks fails: pipe, fork, unshare, write, waitpid; read, malloc, the
      command; read, execve.  A write without a reader does not return at all. */
  predicate FailedCall(s: State, e: Event) {
    && !e.ok
    && match e.who
       case Father =>
         if s.f.WriteSync1? then HasReader(s.kernel, SYNC1)
         else if s.f.WriteSync2? then HasReader(s.kernel, SYNC2)
         else !s.f.CloseRead1? && !s.f.CloseRead2? && !s.f.CloseRead2Again? && !s.f.CloseWrite1?
       case Child1 => !s.c1.Child1CloseWrite? && !s.c1.Child1CloseRead?
       case Child2 => s.c2.Child2Read? || s.c2.Execve?
  }

  lemma FatherFails(cfg: Config, s: State, ok: bool, val: int)
    requires FatherInv(cfg, s) && FatherStep(cfg, s, ok, val).Some?
    ensures FatherStep(cfg, s, ok, val).value.f == FatherExited(1) <==> FailedCall(s, Event(Father, ok, val))
  {
  }

  lemma Child1Fails(cfg: Config, s: State, ok: bool, val: int)
    requires Child1Inv(s) && Child1Step(s, ok, val).Some?
    ensures Child1Step(s, ok, val).value.c1 == Child1Exited(1) <==> FailedCall(s, Event(Child1, ok, val))
  {
  }

  lemma Child2Fails(cfg: Config, s: State, ok: bool, val: int)
    requires Child2Step(s, ok, val).Some?
    ensures FailedCall(s, Event(Child2, ok, val)) <==> !ok && (s.c2.Child2Read? || s.c2.Execve?)
    ensures FailedCall(s, Event(Child2, ok, val)) ==> Child2Step(s, ok, val).value.c2 == Child2Exited(1)
    ensures s.c2.Execve? && ok ==> Child2Step(s, ok, val).value.c2.Shell?
  {
  }

  /** The father ends with status 1 exactly when one of its checked calls has failed, and so does
      child1. */
  lemma StatusOneIffFailed(cfg: Config, es: seq<Event>, s: State)
    requires Reaches(cfg, es, s)
    ensures s.f == FatherExited(1) <==>
            Runs.Occurs(Machine(cfg), (u: State, e: Event) => e.who.Father? && FailedCall(u, e), Init(cfg), es)
    ensures s.c1 == Child1Exited(1) <==>
            Runs.Occurs(Machine(cfg), (u: State, e: Event) => e.who.Child1? && FailedCall(u, e), Init(cfg), es)
  {
    var step, inv := Machine(cfg), (u: State) => Inv(cfg, u);
    var fatherBad := (u: State, e: Event) => e.who.Father? && FailedCall(u, e);
    var childBad := (u: State, e: Event) => e.who.Child1? && FailedCall(u, e);
    var fatherMark, childMark := (u: State) => u.f == FatherExited(1), (u: State) => u.c1 == Child1Exited(1);
    forall u, e | inv(u) && step(u, e).Some?
      ensures inv(step(u, e).value)
      ensures fatherMark(step(u, e).value) <==> fatherMark(u) || fatherBad(u, e)
      ensures childMark(step(u, e).value) <==> childMark(u) || childBad(u, e)
    {
      StepKeepsInv(cfg, u, e);
      FailedStep(cfg, u, e);
    }
    InitInv(cfg);
    Runs.OccursIff(step, inv, fatherBad, fatherMark, Init(cfg), es);
    Runs.OccursIff(step, inv, childBad, childMark, Init(cfg), es);
  }

  lemma FailedStep(cfg: Config, s: State, e: Event)
    requires Inv(cfg, s) && Step(cfg, s, e).Some?
    ensures var t := Step(cfg, s, e).value;
            && (t.f == FatherExited(1) <==> s.f == FatherExited(1) || (e.who.Father? && FailedCall(s, e)))
            && (t.c1 == Child1Exited(1) <==> s.c1 == Child1Exited(1) || (e.who.Child1? && FailedCall(s, e)))
  {
    match e.who
    case Father =>
      FatherFails(cfg, s, e.ok, e.val);
      FatherMovesC1(cfg, s, e.ok, e.val);
    case Child1 => Child1Fails(cfg, s, e.ok, e.val);
    case Child2 =>
  }

  lemma FatherMovesC1(cfg: Config, s: State, ok: bool, val: int)
    requires FatherInv(cfg, s) && FatherStep(cfg, s, ok, val).Some?
    ensures FatherStep(cfg, s, ok, val).value.c1.Child1Exited? <==> s.c1.Child1Exited?
    ensures s.c1.Child1Exited? ==> FatherStep(cfg, s, ok, val).value.c1 == s.c1
  {
  }

  // ----- runs without failure -----

  /** The steps in which no call and no command fails. */
  function GoodMachine(cfg: Config): (State, Event) -> Option<State> {
    (s: State, e: Event) => if e.ok then Step(cfg, s, e) else None
  }

  ghost predicate GoodInv(cfg: Config, s: State) {
    && (s.f.FatherExited? ==> s.f.status == 0)
    && s.reaped == (if cfg.user && (AfterWait1(s.f) || s.f.FatherExited?) then {Child1} else {})
                   + (if s.f.FatherExited? then {Child2} else {})
    && (s.c1.Child1Exited? ==> s.c1.status1 == 0)
    && !s.got1.ReadError? && !s.got2.ReadError?
  }

  /** A father whose calls succeed ends only behind its last wait. */
  lemma GoodFatherGoesOn(cfg: Config, s: State, val: int)
    requires Inv(cfg, s) && GoodInv(cfg, s) && FatherStep(cfg, s, true, val).Some?
    ensures FatherStep(cfg, s, true, val).value.f.FatherExited? <==> s.f.WaitChild2?
  {
    if s.f.WriteSync1? { Holders(s, SYNC1); }
    if s.f.WriteSync2? { Holders(s, SYNC2); }
  }

  lemma GoodFatherWaits(cfg: Config, s: State, val: int)
    requires Inv(cfg, s) && GoodInv(cfg, s) && FatherStep(cfg, s, true, val).Some?
    requires s.f.WaitChild1? || s.f.WaitChild2?
    ensures GoodInv(cfg, FatherStep(cfg, s, true, val).value)
  {
  }

  lemma GoodFatherStep(cfg: Config, s: State, val: int)
    requires Inv(cfg, s) && GoodInv(cfg, s) && FatherStep(cfg, s, true, val).Some?
    ensures GoodInv(cfg, FatherStep(cfg, s, true, val).value)
  {
    if s.f.WaitChild1? || s.f.WaitChild2? {
      GoodFatherWaits(cfg, s, val);
    } else {
      GoodFatherGoesOn(cfg, s, val);
    }
  }

  lemma GoodChildStep(cfg: Config, s: State, val: int)
    requires GoodInv(cfg, s)
    ensures Child1Step(s, true, val).Some? ==> GoodInv(cfg, Child1Step(s, true, val).value)
    ensures Child2Step(s, true, val).Some? ==> GoodInv(cfg, Child2Step(s, true, val).value)
  {
  }

  lemma GoodRunInv(cfg: Config, es: seq<Event>, s: State)
    requires Play(GoodMachine(cfg), Init(cfg), es) == Some(s)
    ensures Inv(cfg, s) && GoodInv(cfg, s)
  {
    var step, inv := GoodMachine(cfg), (u: State) => Inv(cfg, u) && GoodInv(cfg, u);
    forall u, e | inv(u) && step(u, e).Some? ensures inv(step(u, e).value) {
      StepKeepsInv(cfg, u, e);
      match e.who {
        case Father => GoodFatherStep(cfg, u, e.val);
        case _ => GoodChildStep(cfg, u, e.val);
      }
    }
    InitInv(cfg);
    Runs.Invariant(step, inv, Init(cfg), es);
  }

  /** When nothing fails, the shell is executed only in the new namespaces, with the token, and after
      newuidmap and then newgidmap have been run on child2's pid, as the father sent it; and the run ends
      with the children reaped and the father's status 0.  Without the user namespace there is no child1
      and no mapping. */
  lemma GoodRun(cfg: Config, es: seq<Event>, s: State)
    requires Play(GoodMachine(cfg), Init(cfg), es) == Some(s)
    ensures s.c2.Execve? || s.c2.Shell? || s.c2.Child2Exited? ==>
              && Child2 in s.inNew && Child1 !in s.inNew
              && s.got2 == Value('y' as int)
              && if cfg.user then
                   && s.got1 == Value(s.pid2)
                   && s.ran == [Command(NewUidMap, s.pid2, true), Command(NewGidMap, s.pid2, true)]
                 else s.c1.Child1NotForked? && s.ran == []
    ensures Stuck(cfg, s) ==>
              && s.f == FatherExited(0) && s.c2.Child2Exited?
              && (cfg.user ==> s.c1 == Child1Exited(0))
              && s.reaped == if cfg.user then {Child1, Child2} else {Child2}
  {
    GoodRunInv(cfg, es, s);
    if !AllEnded(s) {
      NoDeadlock(cfg, s);
    }
  }

  /** The words of a command child1 runs: the tool, child2's pid in decimal, and the fields of the
      maps in the order they were given. */
  lemma CommandWords(cfg: Config, c: Command)
    requires |cfg.umap| >= 1 && |cfg.gmap| >= 1 && c.pid > 0
    ensures var words := Text.Split(CommandLine(cfg, c), ' ');
            && |words| >= 2
            && words[0] == (if c.tool.NewUidMap? then "newuidmap" else "newgidmap")
            && words[1] == Text.Decimal(c.pid) && Text.Parse(Text.Decimal(c.pid)) == c.pid
            && words[2..] == Fields(if c.tool.NewUidMap? then cfg.umap else cfg.gmap)
  {
    var cmd := if c.tool.NewUidMap? then "newuidmap" else "newgidmap";
    LineRoundTrip(cmd, c.pid, if c.tool.NewUidMap? then cfg.umap else cfg.gmap);
  }

  // ----- two runs that show the limits -----

  lemma Go(cfg: Config, es: seq<Event>, s: State, who: Proc, ok: bool, val: int)
    returns (es': seq<Event>, t: State)
    requires Reaches(cfg, es, s) && Step(cfg, s, Event(who, ok, val)).Some?
    ensures Reaches(cfg, es', t) && Some(t) == Step(cfg, s, Event(who, ok, val))
    ensures Inv(cfg, t)
  {
    es' := es + [Event(who, ok, val)];
    t := Step(cfg, s, Event(who, ok, val)).value;
    Runs.PlayAppend(Machine(cfg), Init(cfg), es, Event(who, ok, val));
    ReachableInv(cfg, es', t);
  }

  /** The father's calls up to the one where it sends the pid. */
  lemma GoToWrite1(cfg: Config, pid: int) returns (es: seq<Event>, s: State)
    requires cfg.user && pid > 1
    ensures Reaches(cfg, es, s) && Inv(cfg, s)
    ensures s.pid2 == pid && s.f.WriteSync1? && s.c1.Child1CloseWrite? && s.c2.Child2CloseWrite?
  {
    es, s := [], Init(cfg);
    es, s := Go(cfg, es, s, Father, true, pid);
    es, s := Go(cfg, es, s, Father, true, pid);
    es, s := Go(cfg, es, s, Father, true, pid);
    es, s := Go(cfg, es, s, Father, true, pid);
    es, s := Go(cfg, es, s, Father, true, pid);
    es, s := Go(cfg, es, s, Father, true, pid);
    es, s := Go(cfg, es, s, Father, true, pid);
  }

  /** From there, child1 gets the pid. */
  lemma GoToPid(cfg: Config, pid: int) returns (es: seq<Event>, s: State)
    requires cfg.user && pid > 1
    ensures Reaches(cfg, es, s) && Inv(cfg, s)
    ensures s.pid2 == s.mapPid == pid && s.f.WaitChild1? && s.c1.Child1CloseRead? && s.c2.Child2CloseWrite?
  {
    es, s := GoToWrite1(cfg, pid);
    Holders(s, SYNC1);
    es, s := Go(cfg, es, s, Father, true, pid);
    es, s := Go(cfg, es, s, Child1, true, pid);
    es, s := Go(cfg, es, s, Child1, true, pid);
  }

  /** Then newuidmap fails. */
  lemma GoToFailure(cfg: Config, pid: int) returns (es: seq<Event>, s: State)
    requires cfg.user && pid > 1
    ensures Reaches(cfg, es, s) && Inv(cfg, s)
    ensures s.pid2 == pid && s.f.WaitChild1? && s.c1 == Child1Exited(1) && s.c2.Child2CloseWrite?
    ensures s.ran == [Command(NewUidMap, pid, false)]
  {
    es, s := GoToPid(cfg, pid);
    es, s := Go(cfg, es, s, Child1, true, pid);
    es, s := Go(cfg, es, s, Child1, true, pid);
    es, s := Go(cfg, es, s, Child1, false, pid);
  }

  /** The father does not look at the status, and writes the token. */
  lemma GoToToken(cfg: Config, pid: int) returns (es: seq<Event>, s: State)
    requires cfg.user && pid > 1
    ensures Reaches(cfg, es, s) && Inv(cfg, s)
    ensures s.pid2 == pid && s.wrote2 && s.got2.NotYet? && s.c2.Child2CloseWrite?
    ensures s.ran == [Command(NewUidMap, pid, false)]
  {
    es, s := GoToFailure(cfg, pid);
    es, s := Go(cfg, es, s, Father, true, pid);
    es, s := Go(cfg, es, s, Father, true, pid);
    es, s := Go(cfg, es, s, Father, true, pid);
    Holders(s, SYNC2);
    es, s := Go(cfg, es, s, Father, true, pid);
  }

  /** The shell may be executed with the token although newuidmap failed and newgidmap never ran. */
  lemma TokenWithoutMaps(cfg: Config, pid: int) returns (es: seq<Event>, s: State)
    requires cfg.user && pid > 1
    ensures Reaches(cfg, es, s)
    ensures s.c2.Execve? && s.got2.Value? && s.ran == [Command(NewUidMap, pid, false)] && s.pid2 == pid
  {
    es, s := GoToToken(cfg, pid);
    es, s := Go(cfg, es, s, Child2, true, pid);
    es, s := Go(cfg, es, s, Child2, true, pid);
    es, s := Go(cfg, es, s, Child2, true, pid);
  }

  /** It may also be executed after a zero-byte read, when the father gave up before any mapping. */
  lemma ShellAfterEndOfFile(cfg: Config, pid: int) returns (es: seq<Event>, s: State)
    requires cfg.user && pid > 1
    ensures Reaches(cfg, es, s)
    ensures s.c2.Execve? && s.got2.EndOfFile? && s.ran == [] && s.pid2 == pid
  {
    es, s := GoToWrite1(cfg, pid);
    Holders(s, SYNC1);
    es, s := Go(cfg, es, s, Father, false, pid);
    es, s := Go(cfg, es, s, Child2, true, pid);
    Holders(s, SYNC2);
    es, s := Go(cfg, es, s, Child2, true, pid);
    es, s := Go(cfg, es, s, Child2, true, pid);
  }
}
