/** userns_child_exec.c main and childFunc as two processes around one pipe on which nothing is ever
    written: the child waits for end-of-file, which comes when nobody holds the write end. */
module Handshake {
  import opened Runs
  import opened Pipes
  import opened UsernsExec
  import Text

  const SYNC: nat := 0

  datatype Proc = Parent | Child

  /** `writes` is what the parent has to write, in order; `flags` the namespaces given to clone.
      `childCloses` is true in the source: it says whether childFunc closes its own write end, so that
      its use can be stated. */
  datatype Config = Config(writes: seq<FileWrite>, flags: set<Namespace>, childCloses: bool)

  datatype ParentPc =
    | OpenPipe | Clone
    | WriteFile(next: nat)       // the next of `writes`
    | CloseWrite | WaitChild
    | ParentExited(status: int)

  datatype ChildPc =
    | NotCloned | ChildCloseWrite | ChildRead | ChildCloseRead | Exec | Running
    | ChildExited

  datatype Received = NotYet | EndOfFile | NotEndOfFile

  datatype Attempt = Attempt(write: FileWrite, ok: bool)

  datatype State = State(kernel: Kernel<Proc>, p: ParentPc, c: ChildPc, got: Received, log: seq<Attempt>,
                         childIn: set<Namespace>)    // the new namespaces the child is in

  datatype Event = Event(who: Proc, ok: bool)

  const INIT := State(Kernel(map[Parent := {}], map[]), OpenPipe, NotCloned, NotYet, [], {})

  function ParentExit(s: State, status: int): State {
    s.(kernel := Exit(s.kernel, Parent), p := ParentExited(status))
  }

  function ChildExit(s: State): State {
    s.(kernel := Exit(s.kernel, Child), c := ChildExited)
  }

  /** proc_setgroups_write reports its failures and goes on; update_map ends the process. */
  predicate MayFail(w: FileWrite) { w.file.SetGroupsFile? }

  function ParentStep(cfg: Config, s: State, ok: bool): Option<State> {
    match s.p
    case OpenPipe =>
      if !ok then Some(ParentExit(s, 1))
      else Some(s.(kernel := Open(s.kernel, Parent, SYNC), p := Clone))
    case Clone =>
      if !ok then Some(ParentExit(s, 1))
      else Some(s.(kernel := Fork(s.kernel, Parent, Child),
                   c := if cfg.childCloses then ChildCloseWrite else ChildRead, childIn := cfg.flags,
                   p := WriteFile(0)))
    case WriteFile(next) =>
      if next >= |cfg.writes| then Some(s.(p := CloseWrite))
      else
        var t := s.(log := s.log + [Attempt(cfg.writes[next], ok)]);
        if !ok && !MayFail(cfg.writes[next]) then Some(ParentExit(t, 1))
        else Some(t.(p := WriteFile(next + 1)))
    case CloseWrite =>
      Some(s.(kernel := Close(s.kernel, Parent, Wr(SYNC)), p := WaitChild))
    case WaitChild =>
      if !ok then Some(ParentExit(s, 1))
      else if !s.c.ChildExited? then None
      else Some(ParentExit(s, 0))
    case ParentExited(_) => None
  }

  function ChildStep(s: State, ok: bool): Option<State> {
    match s.c
    case ChildCloseWrite => Some(s.(kernel := Close(s.kernel, Child, Wr(SYNC)), c := ChildRead))
    case ChildRead =>
      if !ok then Some(ChildExit(s.(got := NotEndOfFile)))
      else (
        match Pipes.Read(s.kernel, SYNC)
        case Blocked => None
        case Got(_) => Some(ChildExit(s.(kernel := Take(s.kernel, SYNC), got := NotEndOfFile)))
        case Eof => Some(s.(got := EndOfFile, c := ChildCloseRead)))
    case ChildCloseRead => Some(s.(kernel := Close(s.kernel, Child, Rd(SYNC)), c := Exec))
    case Exec => if !ok then Some(ChildExit(s)) else Some(s.(c := Running))
    case Running => Some(ChildExit(s))
    case NotCloned => None
    case ChildExited => None
  }

  function Step(cfg: Config, s: State, e: Event): Option<State> {
    match e.who
    case Parent => ParentStep(cfg, s, e.ok)
    case Child => ChildStep(s, e.ok)
  }

  function Machine(cfg: Config): (State, Event) -> Option<State> { (s, e) => Step(cfg, s, e) }

  ghost predicate Reaches(cfg: Config, es: seq<Event>, s: State) {
    Play(Machine(cfg), INIT, es) == Some(s)
  }

  // ----- the invariant -----

  function ParentEnds(pc: ParentPc): set<End> {
    match pc
    case OpenPipe => {}
    case WaitChild => {Rd(SYNC)}
    case ParentExited(_) => {}
    case _ => {Rd(SYNC), Wr(SYNC)}
  }

  function ChildEnds(cfg: Config, pc: ChildPc): set<End> {
    var kept := if cfg.childCloses then {} else {Wr(SYNC)};
    match pc
    case ChildCloseWrite => {Rd(SYNC), Wr(SYNC)}
    case ChildRead => {Rd(SYNC)} + kept
    case ChildCloseRead => {Rd(SYNC)} + kept
    case Exec => kept
    case Running => kept
    case _ => {}
  }

  /** The first n writes have been attempted, and only setgroups may have failed. */
  ghost predicate Done(cfg: Config, log: seq<Attempt>, n: nat) {
    && |log| == n <= |cfg.writes|
    && forall i :: 0 <= i < n ==>
         log[i].write == cfg.writes[i] && (log[i].ok || MayFail(cfg.writes[i]))
  }

  /** The last write was one of a map file, and it failed. */
  predicate MapWriteFailed(log: seq<Attempt>) {
    |log| > 0 && !log[|log| - 1].ok && !MayFail(log[|log| - 1].write)
  }

  ghost predicate EndsInv(cfg: Config, s: State) {
    && Fds(s.kernel, Parent) == ParentEnds(s.p)
    && Fds(s.kernel, Child) == ChildEnds(cfg, s.c)
    && Buf(s.kernel, SYNC) == []
  }

  ghost predicate ParentInv(cfg: Config, s: State) {
    && (s.c.ChildCloseWrite? ==> cfg.childCloses)
    && (!s.c.NotCloned? ==> s.childIn == cfg.flags)
    && (!s.p.ParentExited? ==> (s.c.NotCloned? <==> s.p.OpenPipe? || s.p.Clone?))
    && (s.p.OpenPipe? || s.p.Clone? ==> s.log == [])
    && (s.p.WriteFile? ==> s.p.next <= |cfg.writes| && Done(cfg, s.log, s.p.next))
    && (s.p.CloseWrite? || s.p.WaitChild? || s.p == ParentExited(0) ==> Done(cfg, s.log, |cfg.writes|))
    && (s.p == ParentExited(0) ==> s.c.ChildExited?)
    && (s.p.ParentExited? && !s.c.NotCloned? ==> Done(cfg, s.log, |cfg.writes|) || MapWriteFailed(s.log))
    && (s.got.NotYet? <==> s.c.NotCloned? || s.c.ChildCloseWrite? || s.c.ChildRead?)
    && (s.got.NotEndOfFile? ==> s.c.ChildExited?)
    && (s.got.EndOfFile? ==> cfg.childCloses && (s.p.WaitChild? || s.p.ParentExited?))
  }

  ghost predicate Inv(cfg: Config, s: State) { EndsInv(cfg, s) && ParentInv(cfg, s) }

  lemma Writers(s: State)
    ensures HasWriter(s.kernel, SYNC) <==>
              Wr(SYNC) in Fds(s.kernel, Parent) || Wr(SYNC) in Fds(s.kernel, Child)
  {
    if HasWriter(s.kernel, SYNC) {
      var p :| p in s.kernel.fds && Wr(SYNC) in s.kernel.fds[p];
      assert p == Parent || p == Child;
    }
    assert forall p :: Fds(s.kernel, p) != {} ==> p in s.kernel.fds;
  }

  lemma ParentKeepsEnds(cfg: Config, s: State, ok: bool)
    requires Inv(cfg, s) && ParentStep(cfg, s, ok).Some?
    ensures EndsInv(cfg, ParentStep(cfg, s, ok).value)
  {
    var t := ParentStep(cfg, s, ok).value;
    assert Fds(t.kernel, Parent) == ParentEnds(t.p);
  }

  lemma ParentKeepsInv(cfg: Config, s: State, ok: bool)
    requires Inv(cfg, s) && ParentStep(cfg, s, ok).Some?
    ensures Inv(cfg, ParentStep(cfg, s, ok).value)
  {
    ParentKeepsEnds(cfg, s, ok);
  }

  lemma ChildKeepsInv(cfg: Config, s: State, ok: bool)
    requires Inv(cfg, s) && ChildStep(s, ok).Some?
    ensures Inv(cfg, ChildStep(s, ok).value)
  {
    Writers(s);
    var t := ChildStep(s, ok).value;
    if s.c.ChildCloseWrite? || s.c.ChildCloseRead? {
      var e := if s.c.ChildCloseWrite? then Wr(SYNC) else Rd(SYNC);
      assert t.kernel == Close(s.kernel, Child, e);
      CloseEnds(s.kernel, Child, e);
    } else if t.c.ChildExited? {
      assert t.kernel.fds == s.kernel.fds - {Child};
    } else {
      assert t.kernel.fds == s.kernel.fds;
    }
  }

  lemma StepKeepsInv(cfg: Config, s: State, e: Event)
    requires Inv(cfg, s) && Step(cfg, s, e).Some?
    ensures Inv(cfg, Step(cfg, s, e).value)
  {
    match e.who
    case Parent => ParentKeepsInv(cfg, s, e.ok);
    case Child => ChildKeepsInv(cfg, s, e.ok);
  }

  lemma ReachableInv(cfg: Config, es: seq<Event>, s: State)
    requires Reaches(cfg, es, s)
    ensures Inv(cfg, s)
  {
    var step, inv := Machine(cfg), (u: State) => Inv(cfg, u);
    forall u, e | inv(u) && step(u, e).Some? ensures inv(step(u, e).value) {
      StepKeepsInv(cfg, u, e);
    }
    Runs.Invariant(step, inv, INIT, es);
  }

  // ----- the theorems -----

  predicate PastRead(pc: ChildPc) { pc.ChildCloseRead? || pc.Exec? || pc.Running? }

  /** A child past its read has seen end-of-file; then the parent has finished all its writes and
      closed the write end, or it has ended early.  All writes have been done if and only if none of a
      map file failed. */
  lemma ChildWaitsForMaps(cfg: Config, es: seq<Event>, s: State)
    requires Reaches(cfg, es, s)
    ensures PastRead(s.c) ==> s.got.EndOfFile?
    ensures s.got.EndOfFile? ==>
              && (forall p :: Wr(SYNC) !in Fds(s.kernel, p))
              && (s.p.WaitChild? || s.p.ParentExited?)
              && ((s.p.ParentExited? && s.p.status != 0) || Done(cfg, s.log, |cfg.writes|))
              && (Done(cfg, s.log, |cfg.writes|) <==>
                    forall i :: 0 <= i < |s.log| ==> s.log[i].ok || MayFail(s.log[i].write))
  {
    ReachableInv(cfg, es, s);
    if s.got.EndOfFile? {
      forall p ensures Wr(SYNC) !in Fds(s.kernel, p) {
        assert p == Parent || p == Child;
      }
    }
  }

  function ParentRank(cfg: Config, pc: ParentPc): nat {
    match pc
    case OpenPipe => |cfg.writes| + 5
    case Clone => |cfg.writes| + 4
    case WriteFile(next) => if next <= |cfg.writes| then |cfg.writes| - next + 3 else 3
    case CloseWrite => 2
    case WaitChild => 1
    case ParentExited(_) => 0
  }

  function ChildRank(pc: ChildPc): nat {
    match pc
    case NotCloned => 6
    case ChildCloseWrite => 5
    case ChildRead => 4
    case ChildCloseRead => 3
    case Exec => 2
    case Running => 1
    case ChildExited => 0
  }

  function Rank(cfg: Config, s: State): nat { ParentRank(cfg, s.p) + ChildRank(s.c) }

  lemma StepLowersRank(cfg: Config, s: State, e: Event)
    requires Inv(cfg, s) && Step(cfg, s, e).Some?
    ensures Rank(cfg, Step(cfg, s, e).value) < Rank(cfg, s)
  {
  }

  ghost predicate Stuck(cfg: Config, s: State) {
    forall e: Event :: e.ok ==> Step(cfg, s, e).None?
  }

  predicate AllEnded(s: State) { s.p.ParentExited? && (s.c.NotCloned? || s.c.ChildExited?) }

  /** With the child's own close every run ends with both processes ended, and with status 0 only
      after all the writes. */
  lemma EveryRunEnds(cfg: Config, es: seq<Event>, s: State)
    requires Reaches(cfg, es, s) && cfg.childCloses
    ensures |es| + Rank(cfg, s) <= |cfg.writes| + 11
    ensures Stuck(cfg, s) <==> AllEnded(s)
    ensures s.p == ParentExited(0) ==> Done(cfg, s.log, |cfg.writes|) && s.c.ChildExited?
  {
    BoundedRun(cfg, es, s);
    ReachableInv(cfg, es, s);
    Writers(s);
    if !AllEnded(s) {
      var who := if !s.p.ParentExited? && !s.p.WaitChild? then Parent
                 else if s.p.WaitChild? && s.c.ChildExited? then Parent else Child;
      assert Step(cfg, s, Event(who, true)).Some?;
    }
  }

  lemma BoundedRun(cfg: Config, es: seq<Event>, s: State)
    requires Reaches(cfg, es, s)
    ensures |es| + Rank(cfg, s) <= |cfg.writes| + 11
  {
    var step, inv, rank := Machine(cfg), (u: State) => Inv(cfg, u), (u: State) => Rank(cfg, u);
    forall u, e | inv(u) && step(u, e).Some?
      ensures inv(step(u, e).value) && rank(step(u, e).value) < rank(u)
    {
      StepKeepsInv(cfg, u, e);
      StepLowersRank(cfg, u, e);
    }
    Runs.Bounded(step, inv, rank, INIT, es);
  }

  /** Without that close the child would hold the write end itself: from the clone on,
      unless its read fails, it stays at that read and cannot complete it; and the run ends there, with
      the parent waiting for it or gone. */
  lemma WithoutCloseReadBlocks(cfg: Config, es: seq<Event>, s: State)
    requires Reaches(cfg, es, s) && !cfg.childCloses
    ensures !s.c.NotCloned? && !s.got.NotEndOfFile? ==> s.c.ChildRead?
    ensures s.c.ChildRead? ==> forall e: Event :: e.who == Child && e.ok ==> Step(cfg, s, e).None?
    ensures Stuck(cfg, s) && s.c.ChildRead? ==> s.p.WaitChild? || s.p.ParentExited?
  {
    ReachableInv(cfg, es, s);
    Writers(s);
    if !s.p.ParentExited? && !s.p.WaitChild? {
      assert Step(cfg, s, Event(Parent, true)).Some?;
    }
  }

  lemma Go(cfg: Config, es: seq<Event>, s: State, who: Proc, ok: bool) returns (es': seq<Event>, t: State)
    requires Reaches(cfg, es, s) && Step(cfg, s, Event(who, ok)).Some?
    ensures Reaches(cfg, es', t) && Some(t) == Step(cfg, s, Event(who, ok)) && Inv(cfg, t)
  {
    es', t := es + [Event(who, ok)], Step(cfg, s, Event(who, ok)).value;
    Runs.PlayAppend(Machine(cfg), INIT, es, Event(who, ok));
    ReachableInv(cfg, es', t);
  }

  /** The early end is real: after a failed write of the first map file the child runs its command, with
      no map installed. */
  lemma RunsWithoutMaps(cfg: Config) returns (es: seq<Event>, s: State)
    requires cfg.childCloses && |cfg.writes| >= 1 && !MayFail(cfg.writes[0])
    ensures Reaches(cfg, es, s)
    ensures s.c.Running? && s.got.EndOfFile? && s.p == ParentExited(1) && s.log == [Attempt(cfg.writes[0], false)]
  {
    es, s := [], INIT;
    es, s := Go(cfg, es, s, Parent, true);
    es, s := Go(cfg, es, s, Parent, true);
    es, s := Go(cfg, es, s, Parent, false);
    es, s := Go(cfg, es, s, Child, true);
    Writers(s);
    es, s := Go(cfg, es, s, Child, true);
    es, s := Go(cfg, es, s, Child, true);
    es, s := Go(cfg, es, s, Child, true);
  }

  // ----- what the kernel is given -----

  /** The attempts for one kind of ids: none without a map, else its records in one write, for the group
      ids behind "deny". */
  ghost predicate RecordsOf(log: seq<Attempt>, records: Option<seq<string>>, group: bool, pid: nat) {
    match records
    case None => log == []
    case Some(rs) =>
      var k := if group then 1 else 0;
      && |log| == k + 1
      && (group ==> log[0].write == FileWrite(SetGroupsFile, pid, "deny"))
      && log[k].ok && log[k].write.pid == pid
      && log[k].write.file == (if group then GidMapFile else UidMapFile)
      && Text.Split(log[k].write.text, '\n') == rs
  }

  /** What the command line asks for: with -z the one record that maps the caller's id to 0, else the
      comma-separated records of the argument of the last -M or -G, if there is one. */
  function Records(zero: bool, id: nat, arg: Option<string>): Option<seq<string>> {
    if zero then Some(["0 " + Text.Decimal(id) + " 1"])
    else if arg.Some? then Some(Text.Split(arg.value, ','))
    else None
  }

  lemma MapRecords(zero: bool, arg: Option<string>, id: nat)
    requires id < 0x1_0000_0000 && (arg.Some? ==> '\n' !in arg.value)
    ensures var text := MapText(zero, arg, id);
            && (text.Some? <==> Records(zero, id, arg).Some?)
            && (text.Some? ==>
                  Records(zero, id, arg) == Some(Text.Split(Text.Replace(text.value, ',', '\n'), '\n')))
  {
    ZeroMapIsOneRecord(id);
    if MapText(zero, arg, id).Some? {
      RecordsKept(MapText(zero, arg, id).value);
    }
  }

  lemma WritesDone(o: Options, uid: nat, gid: nat, pid: nat, es: seq<Event>, s: State)
    requires Reaches(Config(Writes(o, uid, gid, pid), o.flags, true), es, s)
    requires s.got.EndOfFile? && !(s.p.ParentExited? && s.p.status != 0)
    ensures |s.log| == |Writes(o, uid, gid, pid)|
    ensures forall i :: 0 <= i < |s.log| ==>
              s.log[i].write == Writes(o, uid, gid, pid)[i] && (s.log[i].ok || s.log[i].write.file.SetGroupsFile?)
  {
    ChildWaitsForMaps(Config(Writes(o, uid, gid, pid), o.flags, true), es, s);
  }

  /** For every accepted command line: when the child has seen end-of-file and the parent has not ended
      with an error, the kernel has been given exactly the records the command line asks for: those of
      the user ids, if any, and then, if there are any for the group ids, "deny" and these.  `u` and `g`
      are the arguments of the last -M and -G. */
  lemma RecordsBeforeExec(opts: seq<Opt>, u: Option<string>, g: Option<string>, uid: nat, gid: nat, pid: nat,
                          es: seq<Event>, s: State)
    requires Accepted(opts) && uid < 0x1_0000_0000 && gid < 0x1_0000_0000
    requires if u.Some? then LastUidMap(opts, u.value) && '\n' !in u.value else !HasUidMap(opts)
    requires if g.Some? then LastGidMap(opts, g.value) && '\n' !in g.value else !HasGidMap(opts)
    requires Reaches(Config(Writes(Fold(opts), uid, gid, pid), Fold(opts).flags, true), es, s)
    requires s.got.EndOfFile? && !(s.p.ParentExited? && s.p.status != 0)
    ensures var users, groups := Records(MapZero in opts, uid, u), Records(MapZero in opts, gid, g);
            var n := if users.Some? then 1 else 0;
            && n <= |s.log|
            && RecordsOf(s.log[..n], users, false, pid)
            && RecordsOf(s.log[n..], groups, true, pid)
  {
    var o := Fold(opts);
    FoldOccurrences(opts);
    if u.Some? { FoldLast(opts, u.value); }
    if g.Some? { FoldLast(opts, g.value); }
    assert o.uidMap == u && o.gidMap == g && o.mapZero == (MapZero in opts);
    WritesDone(o, uid, gid, pid, es, s);
    MapRecords(o.mapZero, u, uid);
    MapRecords(o.mapZero, g, gid);
  }

  /** With -z these are the one record that maps the caller's user id to 0, and the same for the group. */
  lemma ZeroRecordsBeforeExec(opts: seq<Opt>, uid: nat, gid: nat, pid: nat, es: seq<Event>, s: State)
    requires Accepted(opts) && MapZero in opts && uid < 0x1_0000_0000 && gid < 0x1_0000_0000
    requires Reaches(Config(Writes(Fold(opts), uid, gid, pid), Fold(opts).flags, true), es, s)
    requires s.got.EndOfFile? && !(s.p.ParentExited? && s.p.status != 0)
    ensures |s.log| == 3
    ensures Text.Split(s.log[0].write.text, '\n') == ["0 " + Text.Decimal(uid) + " 1"]
    ensures Text.Split(s.log[2].write.text, '\n') == ["0 " + Text.Decimal(gid) + " 1"]
  {
    RecordsBeforeExec(opts, None, None, uid, gid, pid, es, s);
  }

  /** The child, and so the command, is in new namespaces exactly for the options that ask for them. */
  lemma ChildInNamespaces(opts: seq<Opt>, writes: seq<FileWrite>, closes: bool, es: seq<Event>, s: State, ns: Namespace)
    requires Reaches(Config(writes, Fold(opts).flags, closes), es, s) && !s.c.NotCloned?
    ensures ns in s.childIn <==> New(ns) in opts
  {
    ReachableInv(Config(writes, Fold(opts).flags, closes), es, s);
    FoldOccurrences(opts);
  }

  // ----- failed calls of the parent -----

  /** pipe, clone or waitpid fails, or a write of uid_map or gid_map. */
  predicate ParentCallFails(cfg: Config, s: State, e: Event) {
    && e.who.Parent? && !e.ok
    && match s.p
       case WriteFile(next) =>
         next < |cfg.writes| && (cfg.writes[next].file.UidMapFile? || cfg.writes[next].file.GidMapFile?)
       case CloseWrite => false
       case _ => true
  }

  lemma ParentFailsStep(cfg: Config, s: State, e: Event)
    requires ParentInv(cfg, s) && Step(cfg, s, e).Some?
    ensures Step(cfg, s, e).value.p == ParentExited(1) <==> s.p == ParentExited(1) || ParentCallFails(cfg, s, e)
  {
  }

  /** The parent ends with status 1 exactly when one of these calls has failed; a failure with setgroups
      has no consequence. */
  lemma StatusOneIffFailed(cfg: Config, es: seq<Event>, s: State)
    requires Reaches(cfg, es, s)
    ensures s.p == ParentExited(1) <==>
            Runs.Occurs(Machine(cfg), (u: State, e: Event) => ParentCallFails(cfg, u, e), INIT, es)
    ensures s.p.ParentExited? ==> s.p.status == 0 || s.p.status == 1
  {
    var step := Machine(cfg);
    var inv := (u: State) => Inv(cfg, u) && (u.p.ParentExited? ==> u.p.status == 0 || u.p.status == 1);
    var fails := (u: State, e: Event) => ParentCallFails(cfg, u, e);
    var failed := (u: State) => u.p == ParentExited(1);
    forall u, e | inv(u) && step(u, e).Some?
      ensures inv(step(u, e).value) && (failed(step(u, e).value) <==> failed(u) || fails(u, e))
    {
      StepKeepsInv(cfg, u, e);
      ParentFailsStep(cfg, u, e);
    }
    Runs.OccursIff(step, inv, fails, failed, INIT, es);
    Runs.Invariant(step, inv, INIT, es);
  }

  // ----- runs without failure -----

  predicate AtSetgroups(cfg: Config, s: State) {
    s.p.WriteFile? && s.p.next < |cfg.writes| && cfg.writes[s.p.next].file.SetGroupsFile?
  }

  /** Nothing fails, but for the write of setgroups perhaps. */
  function GoodMachine(cfg: Config): (State, Event) -> Option<State> {
    (s: State, e: Event) =>
      if e.ok || (e.who.Parent? && AtSetgroups(cfg, s)) then Step(cfg, s, e) else None
  }

  /** Such runs end with status 0, all writes done, and a child that has seen end-of-file and run. */
  lemma GoodRun(cfg: Config, es: seq<Event>, s: State)
    requires Play(GoodMachine(cfg), INIT, es) == Some(s) && cfg.childCloses
    ensures Stuck(cfg, s) <==> s.p == ParentExited(0) && s.c.ChildExited?
    ensures s.got.EndOfFile? || s.p == ParentExited(0) ==>
              && |s.log| == |cfg.writes|
              && forall i :: 0 <= i < |s.log| ==>
                   s.log[i].write == cfg.writes[i] && (s.log[i].ok || s.log[i].write.file.SetGroupsFile?)
    ensures s.c.ChildExited? ==> s.got.EndOfFile?
  {
    var step, inv := GoodMachine(cfg), (u: State) => GoodInv(cfg, u);
    forall u, e | inv(u) && step(u, e).Some? ensures inv(step(u, e).value) {
      StepKeepsInv(cfg, u, e);
      GoodStep(cfg, u, e);
    }
    Runs.Invariant(step, inv, INIT, es);
    Writers(s);
    if !(s.p == ParentExited(0) && s.c.ChildExited?) {
      var who := if !s.p.WaitChild? && !s.p.ParentExited? then Parent
                 else if s.p.WaitChild? && s.c.ChildExited? then Parent else Child;
      assert Step(cfg, s, Event(who, true)).Some?;
    }
  }

  ghost predicate GoodInv(cfg: Config, s: State) {
    Inv(cfg, s) && (s.p.ParentExited? ==> s.p.status == 0) && !s.got.NotEndOfFile?
  }

  lemma GoodStep(cfg: Config, s: State, e: Event)
    requires GoodInv(cfg, s) && GoodMachine(cfg)(s, e).Some?
    ensures var t := GoodMachine(cfg)(s, e).value;
            (t.p.ParentExited? ==> t.p.status == 0) && !t.got.NotEndOfFile?
  {
  }
}
