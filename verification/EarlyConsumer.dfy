/** prodcons4.c: consumers that come while the producer starts.

    The semaphore has the value 1 as soon as it exists.  The producer then sizes the segment, maps it and
    clears it without taking the semaphore.  A consumer may open both objects at any point in between. */
module EarlyConsumer {
  import opened Runs
  import opened Text
  import Mailbox
  import Startup

  /** The producer's next call: ftruncate, mmap, byte `next` of memset, or the first P of its loop. */
  datatype Stage = Truncate | Map | Clear(next: nat) | Ready

  /** `m` is what the consumers see; `faulted` the consumers ended by SIGBUS, which is what reading a
      mapping beyond the end of its object gives. */
  datatype State = State(stage: Stage, m: Mailbox.State, faulted: set<nat>)

  datatype Event = Producer | Consumer(e: Mailbox.Event)

  /** Both objects are new: the semaphore at 1, the segment empty. */
  const INIT := State(Truncate, Mailbox.Init(Startup.SHM_SIZE).(zone := []), {})

  function ProducerStep(s: State): Option<State> {
    match s.stage
    case Truncate => Some(s.(stage := Map, m := s.m.(zone := Startup.Resize(s.m.zone, Startup.SHM_SIZE))))
    case Map => Some(s.(stage := Clear(0)))
    case Clear(next) =>
      if next < |s.m.zone| then Some(s.(stage := Clear(next + 1), m := s.m.(zone := s.m.zone[next := NUL])))
      else Some(s.(stage := Ready))
    case Ready => None
  }

  predicate ReadsEmptySegment(s: State, e: Mailbox.Event) {
    s.stage.Truncate? && e.Go? && e.p in s.m.procs && s.m.procs[e.p].TestFirst?
  }

  function ConsumerStep(s: State, e: Mailbox.Event): Option<State> {
    if e.Arrive? && e.producer then None
    else if ReadsEmptySegment(s, e) then
      Some(s.(m := s.m.(procs := s.m.procs - {e.p}), faulted := s.faulted + {e.p}))
    else
      match Mailbox.Step(s.m, e)
      case None => None
      case Some(t) => Some(s.(m := t))
  }

  function Step(s: State, e: Event): Option<State> {
    match e
    case Producer => ProducerStep(s)
    case Consumer(c) => ConsumerStep(s, c)
  }

  function Machine(): (State, Event) -> Option<State> { (s, e) => Step(s, e) }

  ghost predicate Reaches(es: seq<Event>, s: State) { Play(Machine(), INIT, es) == Some(s) }

  // ----- the invariant -----

  predicate EarlyPc(pc: Mailbox.Pc) { pc.ConsumerIdle? || pc.TestFirst? || pc.ConsumerPost? }

  /** The mailbox that the zone will be. */
  function Cleared(m: Mailbox.State): Mailbox.State { m.(zone := Startup.Zeros(Startup.SHM_SIZE)) }

  ghost predicate IsMailbox(m: Mailbox.State) { exists run :: Mailbox.Reaches(Startup.SHM_SIZE, run, m) }

  ghost predicate ZoneInv(s: State) {
    && s.m.h == Mailbox.NO_HISTORY
    && (forall p :: p in s.m.procs ==> EarlyPc(s.m.procs[p]))
    && (s.stage.Clear? ==> s.stage.next <= Startup.SHM_SIZE)
    && s.m.zone == (if s.stage.Truncate? then [] else Startup.Zeros(Startup.SHM_SIZE))
  }

  ghost predicate Inv(s: State) {
    && ZoneInv(s)
    && if s.faulted == {} then IsMailbox(Cleared(s.m)) else s.m.sem == 0 && Mailbox.InsideSet(s.m) == {}
  }

  lemma ProducerKeepsInv(s: State)
    requires Inv(s) && ProducerStep(s).Some?
    ensures Inv(ProducerStep(s).value)
  {
    var t := ProducerStep(s).value;
    assert t.m.zone == if t.stage.Truncate? then [] else Startup.Zeros(Startup.SHM_SIZE);
    assert t.m.procs == s.m.procs;
    assert Mailbox.InsideSet(t.m) == Mailbox.InsideSet(s.m);
    assert Cleared(t.m) == Cleared(s.m);
  }

  /** A step of a consumer that does not fault is one of the mailbox on the cleared zone. */
  lemma ConsumerStepLifts(s: State, e: Mailbox.Event)
    requires ZoneInv(s) && ConsumerStep(s, e).Some? && !ReadsEmptySegment(s, e)
    ensures var t := ConsumerStep(s, e).value;
            && Mailbox.Step(Cleared(s.m), e) == Some(Cleared(t.m))
            && ZoneInv(t) && t.stage == s.stage && t.faulted == s.faulted
  {
    if e.Go? && s.m.procs[e.p].TestFirst? {
      assert Startup.Zeros(Startup.SHM_SIZE)[0] == NUL;
    }
  }

  lemma NobodyInside(m: Mailbox.State)
    requires Mailbox.InsideSet(m) == {}
    ensures forall p :: p in m.procs ==> !Mailbox.Inside(m.procs[p])
  {
    assert forall p :: p in m.procs && Mailbox.Inside(m.procs[p]) ==> p in Mailbox.InsideSet(m);
  }

  /** With the semaphore down and nobody inside, consumers can only arrive. */
  lemma NobodyGoes(m: Mailbox.State, e: Mailbox.Event)
    requires m.sem == 0 && Mailbox.InsideSet(m) == {} && Mailbox.Step(m, e).Some?
    ensures var t := Mailbox.Step(m, e).value;
            e.Arrive? && t.sem == 0 && Mailbox.InsideSet(t) == {} && t.h == m.h && t.zone == m.zone
  {
    NobodyInside(m);
    if e.Arrive? {
      var t := Mailbox.Step(m, e).value;
      forall q ensures q !in Mailbox.InsideSet(t) {
        assert q !in Mailbox.InsideSet(m);
      }
    }
  }

  lemma FaultKeepsInv(s: State, e: Mailbox.Event)
    requires Inv(s) && s.faulted == {} && ReadsEmptySegment(s, e)
    ensures ConsumerStep(s, e).Some? && Inv(ConsumerStep(s, e).value)
  {
    var run :| Mailbox.Reaches(Startup.SHM_SIZE, run, Cleared(s.m));
    Mailbox.ReachableInv(Startup.SHM_SIZE, run, Cleared(s.m));
    assert Mailbox.InsideSet(Cleared(s.m)) == Mailbox.InsideSet(s.m);
    assert e.p in Mailbox.InsideSet(s.m);
    var t := ConsumerStep(s, e).value;
    forall q ensures q !in Mailbox.InsideSet(t.m) {
      if q in Mailbox.InsideSet(s.m) {
        Mailbox.OnlyOne(Mailbox.InsideSet(s.m), e.p, q);
      }
    }
  }

  lemma ConsumerKeepsInv(s: State, e: Mailbox.Event)
    requires Inv(s) && ConsumerStep(s, e).Some? && !ReadsEmptySegment(s, e)
    ensures Inv(ConsumerStep(s, e).value)
  {
    ConsumerStepLifts(s, e);
    var t := ConsumerStep(s, e).value;
    if s.faulted == {} {
      var run :| Mailbox.Reaches(Startup.SHM_SIZE, run, Cleared(s.m));
      Runs.PlayAppend(Mailbox.Machine(), Mailbox.Init(Startup.SHM_SIZE), run, e);
      assert Mailbox.Reaches(Startup.SHM_SIZE, run + [e], Cleared(t.m));
    } else {
      NobodyGoes(s.m, e);
    }
  }

  lemma StepKeepsInv(s: State, e: Event)
    requires Inv(s) && Step(s, e).Some?
    ensures Inv(Step(s, e).value)
  {
    if s.faulted != {} { NobodyInside(s.m); }
    match e
    case Producer => ProducerKeepsInv(s);
    case Consumer(c) =>
      if ReadsEmptySegment(s, c) {
        FaultKeepsInv(s, c);
      } else {
        ConsumerKeepsInv(s, c);
      }
  }

  lemma ReachableInv(es: seq<Event>, s: State)
    requires Reaches(es, s)
    ensures Inv(s)
  {
    var step, inv := Machine(), (u: State) => Inv(u);
    forall u, e | inv(u) && step(u, e).Some? ensures inv(step(u, e).value) {
      StepKeepsInv(u, e);
    }
    assert Cleared(INIT.m) == Mailbox.Init(Startup.SHM_SIZE);
    assert Mailbox.Reaches(Startup.SHM_SIZE, [], Cleared(INIT.m));
    Runs.Invariant(step, inv, INIT, es);
  }

  // ----- the theorems -----

  /** Whatever consumers do meanwhile, they print nothing, and the zone of a sized segment is all zero;
      so clearing it without the semaphore is harmless. */
  lemma NothingPrintedEarly(es: seq<Event>, s: State)
    requires Reaches(es, s)
    ensures s.m.h == Mailbox.NO_HISTORY
    ensures !s.stage.Truncate? ==> |s.m.zone| == Startup.SHM_SIZE && Mailbox.AllZero(s.m.zone)
  {
    ReachableInv(es, s);
  }

  /** Calls the producer has left. */
  function Left(s: State): int {
    match s.stage
    case Truncate => Startup.SHM_SIZE + 3
    case Map => Startup.SHM_SIZE + 2
    case Clear(next) => Startup.SHM_SIZE + 1 - next
    case Ready => 0
  }

  /** Nothing consumers do keeps the producer from its loop: ftruncate, mmap, one write for each byte of the
      zone, and the end of memset. */
  lemma ProducerGetsReady(es: seq<Event>, s: State) returns (more: seq<Event>, t: State)
    requires Reaches(es, s)
    ensures Reaches(es + more, t) && t.stage.Ready? && ProducerStep(t).None?
    ensures s.stage.Truncate? ==> |more| == Startup.SHM_SIZE + 3
    ensures forall e :: e in more ==> e == Producer
    ensures t.m.procs == s.m.procs && t.m.sem == s.m.sem && t.faulted == s.faulted
  {
    ReachableInv(es, s);
    more, t := [], s;
    assert es + more == es;
    while !t.stage.Ready?
      invariant Reaches(es + more, t) && forall e :: e in more ==> e == Producer
      invariant |more| + Left(t) == Left(s)
      invariant t.m.procs == s.m.procs && t.m.sem == s.m.sem && t.faulted == s.faulted
      invariant t.stage.Clear? ==> t.stage.next <= Startup.SHM_SIZE
      decreases Left(t)
    {
      ReachableInv(es + more, t);
      assert es + (more + [Producer]) == es + more + [Producer];
      Runs.PlayAppend(Machine(), INIT, es + more, Producer);
      more, t := more + [Producer], ProducerStep(t).value;
    }
  }

  /** When the producer gets to its loop, zone, semaphore and consumers are in a state of the mailbox, so
      that all its properties hold from there on, if and only if no consumer has read the zone before
      ftruncate. */
  lemma MailboxUnlessFault(es: seq<Event>, s: State)
    requires Reaches(es, s) && s.stage.Ready?
    ensures IsMailbox(s.m) <==> s.faulted == {}
  {
    ReachableInv(es, s);
    assert Cleared(s.m) == s.m;
    if s.faulted != {} && IsMailbox(s.m) {
      var run :| Mailbox.Reaches(Startup.SHM_SIZE, run, s.m);
      Mailbox.ReachableInv(Startup.SHM_SIZE, run, s.m);
      assert false;
    }
  }

  /** A consumer that has done so has taken the semaphore with it: no P completes any more, neither the
      producer's nor another consumer's, and nothing is ever written or printed. */
  lemma FaultLocksForGood(es: seq<Event>, s: State, later: seq<Mailbox.Event>, t: Mailbox.State)
    requires Reaches(es, s) && s.faulted != {}
    requires Play(Mailbox.Machine(), s.m, later) == Some(t)
    ensures t.sem == 0 && t.h == Mailbox.NO_HISTORY
    ensures forall e :: Mailbox.Step(t, e).Some? ==> e.Arrive?
  {
    ReachableInv(es, s);
    var step := Mailbox.Machine();
    var inv := (u: Mailbox.State) => u.sem == 0 && Mailbox.InsideSet(u) == {} && u.h == Mailbox.NO_HISTORY;
    forall u, e | inv(u) && step(u, e).Some? ensures inv(step(u, e).value) {
      NobodyGoes(u, e);
    }
    Runs.Invariant(step, inv, s.m, later);
    forall e | Mailbox.Step(t, e).Some? ensures e.Arrive? {
      NobodyGoes(t, e);
    }
  }

  /** Such a run: the consumer is through its P before the producer has sized the segment. */
  lemma FaultingConsumer(p: nat) returns (es: seq<Event>, s: State)
    ensures Reaches(es, s) && s.stage.Truncate? && s.faulted == {p} && s.m.sem == 0
  {
    es, s := [], INIT;
    es, s := Go(es, s, Consumer(Mailbox.Arrive(p, false)));
    es, s := Go(es, s, Consumer(Mailbox.Go(p, "")));
    es, s := Go(es, s, Consumer(Mailbox.Go(p, "")));
  }

  lemma Go(es: seq<Event>, s: State, e: Event) returns (es': seq<Event>, t: State)
    requires Reaches(es, s) && Step(s, e).Some?
    ensures Reaches(es', t) && Some(t) == Step(s, e)
  {
    es', t := es + [e], Step(s, e).value;
    Runs.PlayAppend(Machine(), INIT, es, e);
  }

  // ----- consumers with the semaphore of an earlier run -----

  /** A start with -d makes the new segment first and removes the old semaphore afterwards.  A consumer
      that opens its objects between the two has the new zone and the old semaphore, here free for it:
      it goes in and out without the producer's one. */
  function StrayStep(strays: set<nat>, s: Mailbox.State, e: Mailbox.Event): Option<Mailbox.State> {
    if e.Go? && e.p in strays && e.p in s.procs && s.procs[e.p].ConsumerIdle? then
      Some(s.(procs := s.procs[e.p := Mailbox.TestFirst]))
    else if e.Go? && e.p in strays && e.p in s.procs && s.procs[e.p].ConsumerPost? then
      Some(s.(procs := s.procs[e.p := Mailbox.ConsumerIdle]))
    else Mailbox.Step(s, e)
  }

  function StrayMachine(strays: set<nat>): (Mailbox.State, Mailbox.Event) -> Option<Mailbox.State> {
    (s, e) => StrayStep(strays, s, e)
  }

  ghost predicate StrayReaches(strays: set<nat>, es: seq<Mailbox.Event>, s: Mailbox.State) {
    Play(StrayMachine(strays), Mailbox.Init(Startup.SHM_SIZE), es) == Some(s)
  }

  lemma StrayGo(strays: set<nat>, es: seq<Mailbox.Event>, s: Mailbox.State, e: Mailbox.Event)
    returns (es': seq<Mailbox.Event>, t: Mailbox.State)
    requires StrayReaches(strays, es, s) && StrayStep(strays, s, e).Some?
    ensures StrayReaches(strays, es', t) && Some(t) == StrayStep(strays, s, e)
  {
    es', t := es + [e], StrayStep(strays, s, e).value;
    Runs.PlayAppend(StrayMachine(strays), Mailbox.Init(Startup.SHM_SIZE), es, e);
  }

  /** The producer has written the first byte of a date. */
  lemma FirstByteWritten(producer: nat, stray: nat) returns (es: seq<Mailbox.Event>, s: Mailbox.State)
    requires producer != stray
    ensures StrayReaches({stray}, es, s) && s.h == Mailbox.NO_HISTORY
    ensures |s.zone| == Startup.SHM_SIZE && s.zone[0] == 'a' && s.zone[1] == NUL
    ensures stray in s.procs && s.procs[stray].ConsumerIdle?
  {
    es, s := [], Mailbox.Init(Startup.SHM_SIZE);
    es, s := StrayGo({stray}, es, s, Mailbox.Arrive(producer, true));
    es, s := StrayGo({stray}, es, s, Mailbox.Arrive(stray, false));
    es, s := StrayGo({stray}, es, s, Mailbox.Go(producer, "ab\n"));
    es, s := StrayGo({stray}, es, s, Mailbox.Go(producer, "ab\n"));
  }

  /** With such a consumer the beginning of a date can be printed that nobody has written. */
  lemma TornDate(producer: nat, stray: nat) returns (es: seq<Mailbox.Event>, s: Mailbox.State)
    requires producer != stray
    ensures StrayReaches({stray}, es, s)
    ensures s.h.printed == ["a"] && s.h.written == []
  {
    es, s := FirstByteWritten(producer, stray);
    es, s := StrayGo({stray}, es, s, Mailbox.Go(stray, ""));
    es, s := StrayGo({stray}, es, s, Mailbox.Go(stray, ""));
    assert s.procs[stray] == Mailbox.PrintByte("");
    assert "" + [s.zone[0]] == "a";
    es, s := StrayGo({stray}, es, s, Mailbox.Go(stray, ""));
    assert s.procs[stray] == Mailbox.PrintByte("a") && s.h.printed == [];
    es, s := StrayGo({stray}, es, s, Mailbox.Go(stray, ""));
  }

  /** Without, the prints are writes. */
  lemma NoStray(es: seq<Mailbox.Event>, s: Mailbox.State)
    requires StrayReaches({}, es, s)
    ensures Mailbox.Subsequence(s.h.printed, s.h.written, s.h.order)
  {
    SameRuns(Mailbox.Init(Startup.SHM_SIZE), es);
    Mailbox.PrintsAreWrites(Startup.SHM_SIZE, es, s);
  }

  lemma {:induction false} SameRuns(s: Mailbox.State, es: seq<Mailbox.Event>)
    ensures Play(StrayMachine({}), s, es) == Play(Mailbox.Machine(), s, es)
    decreases |es|
  {
    if |es| != 0 && Mailbox.Step(s, es[0]).Some? {
      SameRuns(Mailbox.Step(s, es[0]).value, es[1..]);
    }
  }
}
