/** reaper.c: the SIGCHLD handler of a process that adopts orphans, under signals that coalesce.

    A death makes the process a zombie and SIGCHLD pending; several deaths may leave one pending signal
    (POSIX.1-2017, System Interfaces, section 2.4.1).  The signal is blocked while its handler runs. */
module Reaper {
  import opened Runs

  // ----- capturing signals -----

  const SIGKILL := 9
  const SIGCHLD := 17
  const SIGSTOP := 19

  /** The table signame, without its final NULL. */
  const SIGNAME: seq<string> := [
    "", "HUP", "INT", "QUIT", "ILL", "TRAP", "ABRT", "BUS", "FPE", "KILL", "USR1", "SEGV", "USR2",
    "PIPE", "ALRM", "TERM", "STKFLT", "CHLD", "CONT", "STOP", "TSTP"]

  /** Where `name` is first found in `names`, or -1. */
  function IndexOf(names: seq<string>, name: string): (i: int)
    ensures -1 <= i < |names|
    ensures i >= 0 ==> names[i] == name && forall j :: 0 <= j < i ==> names[j] != name
    ensures i == -1 ==> forall j :: 0 <= j < |names| ==> names[j] != name
  {
    if |names| == 0 then -1
    else if names[0] == name then 0
    else
      var k := IndexOf(names[1..], name);
      if k == -1 then -1 else k + 1
  }

  /** sig_str2type on the table `names`. */
  method SigStr2Type(names: seq<string>, name: string) returns (sig: int)
    ensures sig == IndexOf(names, name)
  {
    var i := 0;
    while i < |names|
      invariant 0 <= i <= |names|
      invariant forall j :: 0 <= j < i ==> names[j] != name
    {
      if names[i] == name {
        return i;
      }
      i := i + 1;
    }
    return -1;
  }

  /** Signal numbers main can capture: sigaction fails for KILL and STOP. */
  predicate Capturable(sig: int) { sig > 0 && sig != SIGKILL && sig != SIGSTOP }

  /** The loop of main over its arguments; None when it returns 1. */
  method SetUp(names: seq<string>, args: seq<string>) returns (captured: Option<set<int>>)
    ensures captured.Some? <==> |args| >= 1 && forall i :: 0 <= i < |args| ==> Capturable(IndexOf(names, args[i]))
    ensures captured.Some? ==> captured.value == set i | 0 <= i < |args| :: IndexOf(names, args[i])
  {
    if |args| < 1 {
      return None;
    }
    var sigs: set<int> := {};
    var i := 0;
    while i < |args|
      invariant 0 <= i <= |args|
      invariant forall j :: 0 <= j < i ==> Capturable(IndexOf(names, args[j]))
      invariant sigs == set j | 0 <= j < i :: IndexOf(names, args[j])
    {
      var sig := SigStr2Type(names, args[i]);
      if sig > 0 {
        if sig == SIGKILL || sig == SIGSTOP {
          return None;
        }
        sigs := sigs + {sig};
      } else {
        return None;
      }
      i := i + 1;
    }
    captured := Some(sigs);
  }

  lemma FirstAt(names: seq<string>, name: string, k: nat)
    requires k < |names| && names[k] == name && forall j :: 0 <= j < k ==> names[j] != name
    ensures IndexOf(names, name) == k
  {
  }

  /** SIGCHLD is captured exactly by the argument CHLD. */
  lemma ChldIs17(name: string)
    ensures IndexOf(SIGNAME, name) == SIGCHLD <==> name == "CHLD"
  {
    NoneBefore17();
    FirstAt(SIGNAME, SIGNAME[17], 17);
  }

  lemma NoneBefore17()
    ensures SIGNAME[17] == "CHLD"
    ensures forall j :: 0 <= j < 17 ==> SIGNAME[j] != SIGNAME[17]
  {
    assert forall j :: 0 <= j < 17 ==> |SIGNAME[j]| != 4 || SIGNAME[j][0] != 'C';
    assert |SIGNAME[17]| == 4 && SIGNAME[17][0] == 'C';
  }

  // ----- the kernel and the handler -----

  /** Where main is: in front of fork, between the return of fork and the assignment of its result to
      pid_sh, or behind that. */
  datatype Phase = BeforeFork | Window | Stored

  /** How the program ends: the handler reaped the shell, waitpid failed in the handler, or main
      returned because of a later argument or of fork. */
  datatype End = ShellEnded | NoChild | GivenUp

  function Status(end: End): int { if end.ShellEnded? then 0 else 1 }

  /** `handling` while sig_hdl runs; `shell` what fork returned; `unannounced` the zombies of the start,
      whose SIGCHLD came too early to be captured; `early` once the shell has been reaped in the window,
      and `reused` once its number has then been given to another child. */
  datatype State = State(
    phase: Phase, handling: bool, shell: Option<nat>,
    live: set<nat>, zombies: set<nat>, unannounced: set<nat>, pending: bool,
    deaths: nat, reaped: nat, early: bool, reused: bool, exit: Option<End>)

  /** main forks, gives up, or assigns pid_sh; the signal is taken; the loop of sig_hdl makes one round,
      in which waitpid may pick any zombie; a child dies; an orphan is adopted, alive or already dead;
      somebody sends SIGCHLD with kill. */
  datatype Event =
    | Fork(pid: nat) | GiveUp | Assign
    | Deliver | Wait(pick: nat)
    | Die(p: nat) | Adopt(p: nat, dead: bool) | Kill

  /** The children a program has before it forks: those of the program that executed it. */
  datatype Inherited = Inherited(live: set<nat>, dead: set<nat>)

  /** From the sigaction of SIGCHLD on, if there is one. */
  function Init(kids: Inherited): State {
    State(BeforeFork, false, None, kids.live - kids.dead, kids.dead, kids.dead, false,
          |kids.dead|, 0, false, false, None)
  }

  predicate IsChild(s: State, p: nat) { p in s.live || p in s.zombies }

  predicate Childless(s: State) { s.live == {} && s.zombies == {} }

  /** The variable pid_sh, if it has been assigned. */
  function PidSh(s: State): Option<nat> { if s.phase.Stored? then s.shell else None }

  /** One round of the while(1) of sig_hdl. */
  function WaitStep(s: State, pick: nat): Option<State> {
    if Childless(s) then Some(s.(exit := Some(NoChild)))                // ECHILD
    else if s.zombies == {} then Some(s.(handling := false))            // 0 == pid
    else if pick !in s.zombies then None
    else
      var t := s.(zombies := s.zombies - {pick}, unannounced := s.unannounced - {pick}, reaped := s.reaped + 1);
      if PidSh(s) == Some(pick) then Some(t.(exit := Some(ShellEnded)))
      else Some(t.(early := s.early || s.shell == Some(pick)))
  }

  /** The steps of main, which does nothing while the handler runs. */
  function MainStep(s: State, e: Event): Option<State> {
    if s.handling then None
    else
      match e
      case Fork(pid) =>
        if !s.phase.BeforeFork? || IsChild(s, pid) then None
        else Some(s.(phase := Window, shell := Some(pid), live := s.live + {pid}))
      case GiveUp => if !s.phase.BeforeFork? then None else Some(s.(exit := Some(GivenUp)))
      case Assign => if !s.phase.Window? then None else Some(s.(phase := Stored))
      case _ => None
  }

  /** `captured` says whether SIGCHLD has been captured; else the signal is discarded. */
  function Step(captured: bool, s: State, e: Event): Option<State> {
    if s.exit.Some? then None
    else
      match e
      case Deliver =>
        if !s.pending || s.handling then None else Some(s.(pending := false, handling := true))
      case Wait(pick) => if !s.handling then None else WaitStep(s, pick)
      case Die(p) =>
        if p !in s.live then None
        else Some(s.(live := s.live - {p}, zombies := s.zombies + {p}, pending := captured, deaths := s.deaths + 1))
      case Adopt(p, dead) =>
        if IsChild(s, p) then None
        else
          var t := s.(reused := s.reused || s.shell == Some(p));
          if dead then Some(t.(zombies := s.zombies + {p}, pending := captured, deaths := s.deaths + 1))
          else Some(t.(live := s.live + {p}))
      case Kill => Some(s.(pending := captured))
      case _ => MainStep(s, e)
  }

  function Machine(captured: bool): (State, Event) -> Option<State> { (s, e) => Step(captured, s, e) }

  ghost predicate Reaches(captured: bool, kids: Inherited, es: seq<Event>, s: State) {
    Play(Machine(captured), Init(kids), es) == Some(s)
  }

  /** What becomes of the shell. */
  ghost predicate ShellInv(s: State) {
    && (s.phase.BeforeFork? <==> s.shell.None?)
    && (s.phase.BeforeFork? ==> !s.early)
    && (s.reused ==> s.early)
    && (s.shell.Some? ==> s.shell.value !in s.unannounced)
    && (s.shell.Some? && !s.reused ==>
          (IsChild(s, s.shell.value) <==> !s.early && s.exit != Some(ShellEnded)))
    && (s.exit == Some(NoChild) ==> Childless(s) && (s.early || s.phase.BeforeFork?))
    && (s.exit == Some(ShellEnded) ==> s.phase.Stored? && (!s.early || s.reused))
    && (s.exit == Some(GivenUp) ==> s.phase.BeforeFork?)
  }

  ghost predicate SetsInv(s: State) { s.live !! s.zombies && s.unannounced <= s.zombies }

  ghost predicate CountInv(s: State) { s.deaths == s.reaped + |s.zombies| }

  ghost predicate SignalInv(captured: bool, s: State) {
    && (captured && s.exit.None? && !s.pending && !s.handling ==> s.zombies <= s.unannounced)
    && (!captured ==> !s.pending && !s.handling)
    && (s.exit == Some(NoChild) || s.exit == Some(ShellEnded) ==> s.handling)
    && (s.exit == Some(GivenUp) ==> !s.handling)
  }

  ghost predicate Inv(captured: bool, s: State) {
    SetsInv(s) && CountInv(s) && SignalInv(captured, s) && ShellInv(s)
  }

  lemma StepKeepsSets(captured: bool, s: State, e: Event)
    requires SetsInv(s) && Step(captured, s, e).Some?
    ensures SetsInv(Step(captured, s, e).value)
  {
  }

  /** What a step does to the zombies and the two counts. */
  lemma Counts(captured: bool, s: State, e: Event)
    requires SetsInv(s) && Step(captured, s, e).Some?
    ensures var t := Step(captured, s, e).value;
            || (t.zombies == s.zombies && t.deaths == s.deaths && t.reaped == s.reaped)
            || (e.Wait? && e.pick in s.zombies && t.zombies == s.zombies - {e.pick}
                && t.deaths == s.deaths && t.reaped == s.reaped + 1)
            || ((e.Die? || e.Adopt?) && e.p !in s.zombies && t.zombies == s.zombies + {e.p}
                && t.deaths == s.deaths + 1 && t.reaped == s.reaped)
  {
  }

  lemma OneLess(xs: set<nat>, ys: set<nat>, x: nat)
    requires x in xs && ys == xs - {x}
    ensures |ys| == |xs| - 1
  {
  }

  lemma OneMore(xs: set<nat>, ys: set<nat>, x: nat)
    requires x !in xs && ys == xs + {x}
    ensures |ys| == |xs| + 1
  {
  }

  lemma StepKeepsCount(captured: bool, s: State, e: Event)
    requires SetsInv(s) && CountInv(s) && Step(captured, s, e).Some?
    ensures CountInv(Step(captured, s, e).value)
  {
    var t := Step(captured, s, e).value;
    Counts(captured, s, e);
    if t.reaped == s.reaped + 1 {
      OneLess(s.zombies, t.zombies, e.pick);
    } else if t.deaths == s.deaths + 1 {
      OneMore(s.zombies, t.zombies, e.p);
    }
  }

  lemma StepKeepsSignal(captured: bool, s: State, e: Event)
    requires SignalInv(captured, s) && Step(captured, s, e).Some?
    ensures SignalInv(captured, Step(captured, s, e).value)
  {
  }

  lemma WaitKeepsShell(s: State, pick: nat)
    requires SetsInv(s) && ShellInv(s) && s.exit.None? && WaitStep(s, pick).Some?
    ensures ShellInv(WaitStep(s, pick).value)
  {
  }

  lemma MainKeepsShell(s: State, e: Event)
    requires SetsInv(s) && ShellInv(s) && s.exit.None? && MainStep(s, e).Some?
    ensures ShellInv(MainStep(s, e).value)
  {
  }

  lemma StepKeepsShell(captured: bool, s: State, e: Event)
    requires SetsInv(s) && ShellInv(s) && Step(captured, s, e).Some?
    ensures ShellInv(Step(captured, s, e).value)
  {
    match e
    case Wait(pick) => WaitKeepsShell(s, pick);
    case Deliver =>
    case Kill =>
    case Die(p) =>
    case Adopt(p, dead) =>
    case _ => MainKeepsShell(s, e);
  }

  lemma StepKeepsInv(captured: bool, s: State, e: Event)
    requires Inv(captured, s) && Step(captured, s, e).Some?
    ensures Inv(captured, Step(captured, s, e).value)
  {
    StepKeepsSets(captured, s, e);
    StepKeepsCount(captured, s, e);
    StepKeepsSignal(captured, s, e);
    StepKeepsShell(captured, s, e);
  }

  lemma ReachableInv(captured: bool, kids: Inherited, es: seq<Event>, s: State)
    requires Reaches(captured, kids, es, s)
    ensures Inv(captured, s)
  {
    var step, inv := Machine(captured), (u: State) => Inv(captured, u);
    forall u, e | inv(u) && step(u, e).Some? ensures inv(step(u, e).value) {
      StepKeepsInv(captured, u, e);
    }
    Runs.Invariant(step, inv, Init(kids), es);
  }

  // ----- no zombie is lost -----

  lemma UnannouncedShrinks(captured: bool, s: State, e: Event)
    requires Step(captured, s, e).Some?
    ensures Step(captured, s, e).value.unannounced <= s.unannounced
  {
  }

  /** No zombie is lost: while the reaper runs, a zombie child that was not one at the start means that
      SIGCHLD is pending or the loop is running, whatever died in whatever order and however many
      signals were merged; and every death has been reaped or is still there to be reaped. */
  lemma NoLostZombie(kids: Inherited, es: seq<Event>, s: State)
    requires Reaches(true, kids, es, s)
    ensures s.exit.None? && !(s.zombies <= s.unannounced) ==> s.pending || s.handling
    ensures s.unannounced <= s.zombies && s.unannounced <= kids.dead
    ensures s.deaths == s.reaped + |s.zombies|
  {
    ReachableInv(true, kids, es, s);
    var step, inv := Machine(true), (u: State) => u.unannounced <= kids.dead;
    forall u, e | inv(u) && step(u, e).Some? ensures inv(step(u, e).value) {
      UnannouncedShrinks(true, u, e);
    }
    Runs.Invariant(step, inv, Init(kids), es);
  }

  /** The exception is real: a child that was dead when SIGCHLD got captured stays a zombie while no
      other signal comes. */
  lemma InheritedZombieStays(kid: nat, shell: nat) returns (es: seq<Event>, s: State)
    requires kid != shell
    ensures Reaches(true, Inherited({}, {kid}), es, s)
    ensures s.phase.Stored? && s.exit.None? && kid in s.zombies && !s.pending && !s.handling
  {
    var kids := Inherited({}, {kid});
    es, s := [], Init(kids);
    es, s := Go(kids, es, s, Fork(shell));
    es, s := Go(kids, es, s, Assign);
  }

  lemma UncapturedStep(s: State, e: Event)
    requires Inv(false, s) && Step(false, s, e).Some?
    ensures var t := Step(false, s, e).value;
            t.reaped == s.reaped && (t.exit == s.exit || t.exit == Some(GivenUp))
  {
  }

  /** Without CHLD among the arguments nothing is ever reaped, and the handler never ends the program. */
  lemma NothingReapedWithoutCapture(kids: Inherited, es: seq<Event>, s: State)
    requires Reaches(false, kids, es, s)
    ensures s.reaped == 0 && s.deaths == |s.zombies| && (s.exit == None || s.exit == Some(GivenUp))
  {
    var step := Machine(false);
    var inv := (u: State) => Inv(false, u) && u.reaped == 0 && (u.exit == None || u.exit == Some(GivenUp));
    forall u, e | inv(u) && step(u, e).Some? ensures inv(step(u, e).value) {
      StepKeepsInv(false, u, e);
      UncapturedStep(u, e);
    }
    Runs.Invariant(step, inv, Init(kids), es);
  }

  // ----- the error exit -----

  /** A program that the handler ends, ends through its error exit if and only if fork has not been
      called yet, or the shell was reaped before its pid was stored in pid_sh; as long as its number is
      not given to another child then.  Otherwise the shell stays a child until its reaping ends the
      program with status 0. */
  lemma ErrorExitIff(captured: bool, kids: Inherited, es: seq<Event>, s: State)
    requires Reaches(captured, kids, es, s)
    ensures s.exit.Some? && s.exit != Some(GivenUp) && !s.reused ==>
              && (s.exit == Some(NoChild) <==> s.phase.BeforeFork? || s.early)
              && Status(s.exit.value) == (if s.phase.BeforeFork? || s.early then 1 else 0)
    ensures s.exit == Some(NoChild) ==> (s.phase.BeforeFork? || s.early) && Status(s.exit.value) == 1
    ensures s.exit == Some(GivenUp) ==> s.phase.BeforeFork? && Status(s.exit.value) == 1
    ensures s.reused ==> s.early
    ensures s.shell.Some? && !s.early ==>
              (s.exit.Some? <==> !IsChild(s, s.shell.value)) && (s.exit.Some? ==> Status(s.exit.value) == 0)
  {
    ReachableInv(captured, kids, es, s);
    HowItEnds(s);
  }

  lemma HowItEnds(s: State)
    ensures s.exit.None? || s.exit == Some(ShellEnded) || s.exit == Some(NoChild) || s.exit == Some(GivenUp)
  {
    match s.exit
    case None =>
    case Some(end) => match end { case ShellEnded => case NoChild => case GivenUp => }
  }

  /** waitpid picks the shell when fork has returned and pid_sh is not stored. */
  predicate UnnoticedReaping(s: State, e: Event) {
    s.phase.Window? && e.Wait? && s.shell == Some(e.pick) && e.pick in s.zombies
  }

  /** A step reaps the shell unnoticed only between the return of fork and the assignment of pid_sh. */
  lemma EarlyOnlyInWindow(captured: bool, s: State, e: Event)
    requires Inv(captured, s) && !s.early && Step(captured, s, e).Some?
    ensures var t := Step(captured, s, e).value;
            t.early <==> UnnoticedReaping(s, e)
  {
  }

  /** The wait of a run that reaped the shell unnoticed. */
  lemma {:induction false} EarlyHasCause(captured: bool, s: State, es: seq<Event>) returns (k: nat, u: State)
    requires Inv(captured, s) && !s.early
    requires Play(Machine(captured), s, es).Some? && Play(Machine(captured), s, es).value.early
    ensures k < |es| && Play(Machine(captured), s, es[..k]) == Some(u)
    ensures UnnoticedReaping(u, es[k])
    decreases |es|
  {
    EarlyOnlyInWindow(captured, s, es[0]);
    var t := Step(captured, s, es[0]).value;
    if t.early {
      k, u := 0, s;
    } else {
      StepKeepsInv(captured, s, es[0]);
      k, u := EarlyHasCause(captured, t, es[1..]);
      k := k + 1;
      assert es[..k][1..] == es[1..][..k - 1];
    }
  }

  /** The delivery of a run in whose last state the handler runs, or has ended the program, before fork. */
  lemma {:induction false} DeliveryHasCause(captured: bool, s: State, es: seq<Event>) returns (k: nat, u: State)
    requires !s.handling && s.phase.BeforeFork?
    requires Play(Machine(captured), s, es).Some?
    requires var t := Play(Machine(captured), s, es).value; t.handling && t.phase.BeforeFork?
    ensures k < |es| && Play(Machine(captured), s, es[..k]) == Some(u)
    ensures u.phase.BeforeFork? && es[k] == Deliver && u.pending
    decreases |es|
  {
    var t := Step(captured, s, es[0]).value;
    if es[0] == Deliver {
      k, u := 0, s;
    } else {
      if !t.phase.BeforeFork? { ForkedForGood(captured, t, es[1..]); }
      k, u := DeliveryHasCause(captured, t, es[1..]);
      k := k + 1;
      assert es[..k][1..] == es[1..][..k - 1];
    }
  }

  lemma ForkedForGood(captured: bool, s: State, es: seq<Event>)
    requires !s.phase.BeforeFork? && Play(Machine(captured), s, es).Some?
    ensures !Play(Machine(captured), s, es).value.phase.BeforeFork?
  {
    Runs.Invariant(Machine(captured), (u: State) => !u.phase.BeforeFork?, s, es);
  }

  /** Every run to the error exit contains one of two events: a SIGCHLD taken before fork, or a wait that
      reaped the shell when fork had returned and pid_sh was not stored. */
  lemma ErrorExitHasCause(captured: bool, kids: Inherited, es: seq<Event>, s: State) returns (k: nat, u: State)
    requires Reaches(captured, kids, es, s) && s.exit == Some(NoChild)
    ensures k < |es| && Reaches(captured, kids, es[..k], u)
    ensures if s.phase.BeforeFork? then u.phase.BeforeFork? && es[k] == Deliver && u.pending
            else UnnoticedReaping(u, es[k])
  {
    ReachableInv(captured, kids, es, s);
    if s.phase.BeforeFork? {
      k, u := DeliveryHasCause(captured, Init(kids), es);
    } else {
      k, u := EarlyHasCause(captured, Init(kids), es);
    }
  }

  /** The program with fork and the assignment as one step; with `blocked`, SIGCHLD is also kept back
      until then. */
  function CarefulStep(captured: bool, blocked: bool, s: State, e: Event): Option<State> {
    if e.Assign? || (blocked && e.Deliver? && s.phase.BeforeFork?) then None
    else if e.Fork? then
      match Step(captured, s, e)
      case None => None
      case Some(t) => Step(captured, t, Assign)
    else Step(captured, s, e)
  }

  function CarefulMachine(captured: bool, blocked: bool): (State, Event) -> Option<State> {
    (s, e) => CarefulStep(captured, blocked, s, e)
  }

  ghost predicate CarefulInv(captured: bool, blocked: bool, s: State) {
    Inv(captured, s) && !s.early && !s.phase.Window? && (blocked && s.phase.BeforeFork? ==> !s.handling)
  }

  lemma CarefulFork(captured: bool, blocked: bool, s: State, pid: nat)
    requires CarefulInv(captured, blocked, s) && CarefulStep(captured, blocked, s, Fork(pid)).Some?
    ensures CarefulInv(captured, blocked, CarefulStep(captured, blocked, s, Fork(pid)).value)
  {
    var t := Step(captured, s, Fork(pid)).value;
    StepKeepsInv(captured, s, Fork(pid));
    StepKeepsInv(captured, t, Assign);
  }

  /** No other step enters the window, or goes back in front of fork. */
  lemma OtherSteps(captured: bool, s: State, e: Event)
    requires !e.Fork? && !e.Assign? && Step(captured, s, e).Some?
    ensures var t := Step(captured, s, e).value;
            t.phase == s.phase && (t.handling ==> s.handling || e.Deliver?)
  {
  }

  lemma CarefulKeepsInv(captured: bool, blocked: bool, s: State, e: Event)
    requires CarefulInv(captured, blocked, s) && CarefulStep(captured, blocked, s, e).Some?
    ensures CarefulInv(captured, blocked, CarefulStep(captured, blocked, s, e).value)
  {
    if e.Fork? {
      CarefulFork(captured, blocked, s, e.pid);
    } else {
      StepKeepsInv(captured, s, e);
      EarlyOnlyInWindow(captured, s, e);
      OtherSteps(captured, s, e);
    }
  }

  /** When fork and the assignment are one step, the error exit is reached only before fork, and not at
      all if SIGCHLD is not taken before it either.  From then on the program ends, with status 0,
      exactly when the shell has been reaped, whatever other children remain. */
  lemma NeverEchild(captured: bool, blocked: bool, kids: Inherited, es: seq<Event>, s: State)
    requires Play(CarefulMachine(captured, blocked), Init(kids), es) == Some(s)
    ensures s.exit == Some(NoChild) ==> s.phase.BeforeFork? && !blocked
    ensures s.exit.Some? && s.phase.BeforeFork? ==> Status(s.exit.value) == 1
    ensures s.shell.Some? ==>
              (s.exit.Some? <==> !IsChild(s, s.shell.value)) && (s.exit.Some? ==> Status(s.exit.value) == 0)
  {
    var step, inv := CarefulMachine(captured, blocked), (u: State) => CarefulInv(captured, blocked, u);
    forall u, e | inv(u) && step(u, e).Some? ensures inv(step(u, e).value) {
      CarefulKeepsInv(captured, blocked, u, e);
    }
    Runs.Invariant(step, inv, Init(kids), es);
    HowItEnds(s);
  }

  /** A shell that has died after pid_sh was stored ends the program: SIGCHLD is pending, unless the
      handler runs already, and its loop can reap the shell. */
  lemma DeadShellEndsProgram(kids: Inherited, es: seq<Event>, s: State) returns (more: seq<Event>, t: State)
    requires Reaches(true, kids, es, s) && s.phase.Stored? && !s.early && s.exit.None?
    requires s.shell.Some? && s.shell.value in s.zombies
    ensures Play(Machine(true), s, more) == Some(t) && |more| <= 2
    ensures t.exit.Some? && Status(t.exit.value) == 0
  {
    ReachableInv(true, kids, es, s);
    assert s.pending || s.handling;
    var u := if s.handling then s else Step(true, s, Deliver).value;
    t := Step(true, u, Wait(s.shell.value)).value;
    more := (if s.handling then [] else [Deliver]) + [Wait(s.shell.value)];
    assert Play(Machine(true), u, [Wait(s.shell.value)]) == Some(t);
    if !s.handling {
      assert more[1..] == [Wait(s.shell.value)];
    } else {
      assert more == [Wait(s.shell.value)];
    }
  }

  // ----- runs that show the limits -----

  lemma Go(kids: Inherited, es: seq<Event>, s: State, e: Event) returns (es': seq<Event>, t: State)
    requires Reaches(true, kids, es, s) && Step(true, s, e).Some?
    ensures es' == es + [e] && Reaches(true, kids, es', t) && Some(t) == Step(true, s, e)
  {
    es', t := es + [e], Step(true, s, e).value;
    Runs.PlayAppend(Machine(true), Init(kids), es, e);
  }

  lemma TwoDeaths(shell: nat, a: nat, b: nat) returns (es: seq<Event>, s: State)
    requires shell != a && shell != b && a != b
    ensures Reaches(true, Inherited({}, {}), es, s)
    ensures es == [Fork(shell), Assign, Adopt(a, false), Die(a), Adopt(b, true)]
    ensures s.deaths == 2 && s.reaped == 0 && s.zombies == {a, b} && s.live == {shell}
    ensures s.pending && !s.handling && s.exit.None? && PidSh(s) == Some(shell)
  {
    var kids := Inherited({}, {});
    es, s := [], Init(kids);
    es, s := Go(kids, es, s, Fork(shell));
    es, s := Go(kids, es, s, Assign);
    es, s := Go(kids, es, s, Adopt(a, false));
    es, s := Go(kids, es, s, Die(a));
    es, s := Go(kids, es, s, Adopt(b, true));
  }

  /** Two deaths merged into one signal are both reaped by one run of the handler, and nothing is left. */
  lemma MergedDeaths(shell: nat, a: nat, b: nat) returns (es: seq<Event>, s: State)
    requires shell != a && shell != b && a != b
    ensures Reaches(true, Inherited({}, {}), es, s)
    ensures s.deaths == 2 && s.reaped == 2 && s.zombies == {} && s.live == {shell}
    ensures !s.pending && !s.handling && s.exit.None?
    ensures es == [Fork(shell), Assign, Adopt(a, false), Die(a), Adopt(b, true), Deliver, Wait(b), Wait(a), Wait(a)]
  {
    var kids := Inherited({}, {});
    es, s := TwoDeaths(shell, a, b);
    es, s := Go(kids, es, s, Deliver);
    es, s := Go(kids, es, s, Wait(b));
    es, s := Go(kids, es, s, Wait(a));
    es, s := Go(kids, es, s, Wait(a));
  }

  /** A failed fork, or a later argument that names no signal, ends the program with status 1. */
  lemma GivesUp(kids: Inherited) returns (es: seq<Event>, s: State)
    ensures Reaches(true, kids, es, s) && es == [GiveUp]
    ensures s.exit.Some? && Status(s.exit.value) == 1 && s.shell == None && !s.handling
  {
    es, s := Go(kids, [], Init(kids), GiveUp);
  }

  /** A shell that dies and is reaped in the window makes the next waitpid fail. */
  lemma ShellReapedInWindow(shell: nat) returns (es: seq<Event>, s: State)
    ensures Reaches(true, Inherited({}, {}), es, s)
    ensures s.exit == Some(NoChild) && Status(NoChild) == 1 && s.shell == Some(shell) && s.reaped == 1
  {
    var kids := Inherited({}, {});
    es, s := [], Init(kids);
    es, s := Go(kids, es, s, Fork(shell));
    es, s := Go(kids, es, s, Die(shell));
    es, s := Go(kids, es, s, Deliver);
    es, s := Go(kids, es, s, Wait(shell));
    es, s := Go(kids, es, s, Wait(shell));
  }

  /** So does an inherited child that dies before fork: no shell is ever forked. */
  lemma InheritedChildDies(kid: nat) returns (es: seq<Event>, s: State)
    ensures Reaches(true, Inherited({kid}, {}), es, s)
    ensures s.exit == Some(NoChild) && s.shell == None && !s.early && s.reaped == 1
  {
    var kids := Inherited({kid}, {});
    es, s := [], Init(kids);
    es, s := Go(kids, es, s, Die(kid));
    es, s := Go(kids, es, s, Deliver);
    es, s := Go(kids, es, s, Wait(kid));
    es, s := Go(kids, es, s, Wait(kid));
  }

  /** And a SIGCHLD sent with kill before fork, when there is no child at all. */
  lemma SignalSentBeforeFork() returns (es: seq<Event>, s: State)
    ensures Reaches(true, Inherited({}, {}), es, s)
    ensures s.exit == Some(NoChild) && s.shell == None && s.deaths == 0
  {
    var kids := Inherited({}, {});
    es, s := [], Init(kids);
    es, s := Go(kids, es, s, Kill);
    es, s := Go(kids, es, s, Deliver);
    es, s := Go(kids, es, s, Wait(0));
  }

  /** With the number of a shell reaped in the window given to an orphan, the program ends with that
      orphan, and with status 0. */
  lemma OrphanTakenForShell(shell: nat) returns (es: seq<Event>, s: State)
    ensures Reaches(true, Inherited({}, {}), es, s)
    ensures s.early && s.reused && s.exit == Some(ShellEnded) && Status(ShellEnded) == 0
  {
    var kids := Inherited({}, {});
    es, s := [], Init(kids);
    es, s := Go(kids, es, s, Fork(shell));
    es, s := Go(kids, es, s, Die(shell));
    es, s := Go(kids, es, s, Deliver);
    es, s := Go(kids, es, s, Wait(shell));
    es, s := Go(kids, es, s, Adopt(shell, false));
    es, s := Go(kids, es, s, Wait(shell));
    es, s := Go(kids, es, s, Assign);
    es, s := Go(kids, es, s, Die(shell));
    es, s := Go(kids, es, s, Deliver);
    es, s := Go(kids, es, s, Wait(shell));
  }

  // ----- the loop of sig_hdl -----

  /** What the other processes can do while the handler runs. */
  predicate ByOthers(e: Event) { e.Die? || e.Adopt? || e.Kill? }

  class Process {
    var s: State

    constructor (start: State)
      ensures s == start
    {
      s := start;
    }

    /** One round of the while(1): waitpid(-1, &status, WNOHANG) and what follows; `leaves` when the
        handler returns or exits. */
    method Round() returns (leaves: bool, ghost e: Event)
      requires s.handling && s.exit.None?
      modifies this
      ensures e.Wait? && Step(true, old(s), e) == Some(s)
      ensures leaves <==> !s.handling || s.exit.Some?
      ensures !leaves ==> |s.zombies| < |old(s).zombies|
      ensures leaves && s.exit.None? ==> s.zombies == {} && s.live != {}
      ensures s.exit == Some(NoChild) ==> Childless(s)
    {
      e := Wait(0);
      if s.live == {} && s.zombies == {} {
        s := s.(exit := Some(NoChild));   // waitpid fails with ECHILD
        return true, e;
      }
      if s.zombies == {} {
        s := s.(handling := false);       // no more dead child
        return true, e;
      }
      var pid :| pid in s.zombies;
      e := Wait(pid);
      OneLess(s.zombies, s.zombies - {pid}, pid);
      s := s.(zombies := s.zombies - {pid}, unannounced := s.unannounced - {pid}, reaped := s.reaped + 1);
      if s.phase.Stored? && s.shell == Some(pid) {
        s := s.(exit := Some(ShellEnded));
        return true, e;
      }
      s := s.(early := s.early || s.shell == Some(pid));
      return false, e;
    }

    /** The SIGCHLD case of sig_hdl.  `schedule` says who runs next: Some(e) is a step of another
        process, None a round of the loop; after its end only the handler runs.  The loop is a run of
        the machine above, it ends, and unless it ends the program it leaves no zombie behind, and a
        live child. */
    method SigHdl(schedule: seq<Option<Event>>) returns (ghost run: seq<Event>)
      requires s.handling && s.exit.None?
      requires forall i :: 0 <= i < |schedule| ==> schedule[i].None? || ByOthers(schedule[i].value)
      modifies this
      ensures Play(Machine(true), old(s), run) == Some(s)
      ensures s.exit.None? ==> !s.handling && s.zombies == {} && s.live != {}
      ensures s.exit == Some(NoChild) ==> Childless(s)
    {
      run := [];
      var next := 0;
      while true
        invariant 0 <= next <= |schedule|
        invariant s.handling && s.exit.None?
        invariant Play(Machine(true), old(s), run) == Some(s)
        decreases |schedule| - next, |s.zombies|
      {
        if next < |schedule| && schedule[next].Some? {
          var e := schedule[next].value;
          var t := Step(true, s, e);
          if t.Some? {
            PlayAppend(Machine(true), old(s), run, e);
            run := run + [e];
            s := t.value;
          }
          next := next + 1;
        } else {
          if next < |schedule| { next := next + 1; }
          var leaves, e := Round();
          PlayAppend(Machine(true), old(s), run, e);
          run := run + [e];
          if leaves { return; }
        }
      }
    }
  }
}
