/** The semaphore of semns.c under any number of processes: P then V, with or without SEM_UNDO, fork,
    exit and unshare(CLONE_NEWIPC).

    The kernel keeps one adjustment for each process; a semop with SEM_UNDO moves it the other way than
    the value (POSIX.1-2017, System Interfaces, semop()), a forked child starts with none, and exit
    gives it back.  That unshare(CLONE_NEWIPC) gives it back too is taken as an axiom of the kernel. */
module SemUndo {
  import opened Runs

  /** `inside` is true between a successful P and the V that follows; `inNs` while the process is in
      the IPC namespace of the semaphore. */
  datatype Proc = Proc(adj: int, inside: bool, inNs: bool)

  datatype State = State(value: int, procs: map<nat, Proc>)

  datatype Event = P(p: nat) | V(p: nat) | Fork(p: nat, child: nat) | Exit(p: nat) | Unshare(p: nat)

  /** The value after semV_init, one process. */
  function Init(first: nat): State { State(1, map[first := Proc(0, false, true)]) }

  function Step(undo: bool, s: State, e: Event): Option<State> {
    if e.p !in s.procs then None
    else
      var me := s.procs[e.p];
      match e
      case P(p) =>
        if me.inside || !me.inNs || s.value < 1 then None
        else Some(State(s.value - 1, s.procs[p := Proc(if undo then me.adj + 1 else me.adj, true, true)]))
      case V(p) =>
        if !me.inside || !me.inNs then None
        else Some(State(s.value + 1, s.procs[p := Proc(if undo then me.adj - 1 else me.adj, false, true)]))
      case Fork(p, child) =>
        if child in s.procs then None
        else Some(s.(procs := s.procs[child := Proc(0, false, me.inNs)]))
      case Exit(p) => Some(State(s.value + me.adj, s.procs - {p}))
      case Unshare(p) => Some(State(s.value + me.adj, s.procs[p := Proc(0, false, false)]))
  }

  function Machine(undo: bool): (State, Event) -> Option<State> { (s, e) => Step(undo, s, e) }

  ghost predicate Reaches(undo: bool, first: nat, es: seq<Event>, s: State) {
    Play(Machine(undo), Init(first), es) == Some(s)
  }

  // ----- sums of adjustments -----

  ghost function Pick(m: map<nat, Proc>): (k: nat)
    requires |m| != 0
    ensures k in m && |m - {k}| == |m| - 1
  {
    assert m.Keys != {};
    var k :| k in m.Keys;
    RemoveOne(m, k);
    k
  }

  ghost function Sum(m: map<nat, Proc>): int
    decreases |m|
  {
    if |m| == 0 then 0 else m[Pick(m)].adj + Sum(m - {Pick(m)})
  }

  lemma RemoveOne(m: map<nat, Proc>, k: nat)
    requires k in m
    ensures |m - {k}| == |m| - 1
  {
    assert (m - {k}).Keys == m.Keys - {k};
  }

  lemma {:induction false} SumAt(m: map<nat, Proc>, k: nat)
    requires k in m
    ensures Sum(m) == m[k].adj + Sum(m - {k})
    decreases |m|
  {
    RemoveOne(m, k);
    var k0 := Pick(m);
    if k0 != k {
      SumAt(m - {k0}, k);
      SumAt(m - {k}, k0);
      assert m - {k0} - {k} == m - {k} - {k0};
    }
  }

  lemma SumUpdate(m: map<nat, Proc>, k: nat, x: Proc)
    ensures Sum(m[k := x]) == Sum(m) + x.adj - (if k in m then m[k].adj else 0)
  {
    var n := m[k := x];
    SumAt(n, k);
    SameRest(m, k, x);
    if k in m {
      SumAt(m, k);
    }
  }

  lemma SameRest(m: map<nat, Proc>, k: nat, x: Proc)
    ensures m[k := x] - {k} == m - {k}
    ensures k !in m ==> m - {k} == m
  {
  }

  lemma {:induction false} SumNatural(m: map<nat, Proc>)
    requires forall p :: p in m ==> m[p].adj >= 0
    ensures Sum(m) >= 0
    decreases |m|
  {
    if |m| != 0 {
      assert m.Keys != {};
      var k :| k in m.Keys;
      SumAt(m, k);
      RemoveOne(m, k);
      SumNatural(m - {k});
    }
  }

  lemma {:induction false} SumZero(m: map<nat, Proc>)
    requires forall p :: p in m ==> m[p].adj == 0
    ensures Sum(m) == 0
    decreases |m|
  {
    if |m| != 0 {
      assert m.Keys != {};
      var k :| k in m.Keys;
      SumAt(m, k);
      RemoveOne(m, k);
      SumZero(m - {k});
    }
  }

  // ----- with SEM_UNDO -----

  /** Value plus adjustments is 1; an adjustment is 1 for a process that holds the lock, else 0. */
  ghost predicate UndoInv(s: State) {
    && s.value + Sum(s.procs) == 1
    && s.value >= 0
    && forall p :: p in s.procs ==>
         && s.procs[p].adj == (if s.procs[p].inside then 1 else 0)
         && (s.procs[p].inside ==> s.procs[p].inNs)
  }

  lemma UndoStep(s: State, e: Event)
    requires UndoInv(s) && Step(true, s, e).Some?
    ensures UndoInv(Step(true, s, e).value)
  {
    var t := Step(true, s, e).value;
    var q := if e.Fork? then e.child else e.p;
    if e.Exit? {
      SumAt(s.procs, q);
    } else {
      assert t.procs == s.procs[q := t.procs[q]];
      SumUpdate(s.procs, q, t.procs[q]);
    }
    assert t.value + Sum(t.procs) == 1;
  }

  /** In every run with SEM_UNDO the value and the adjustments add up to the initial 1, whoever forked,
      exited or left the namespace on the way. */
  lemma UndoConserves(first: nat, es: seq<Event>, s: State)
    requires Reaches(true, first, es, s)
    ensures UndoInv(s)
  {
    var step, inv := Machine(true), (u: State) => UndoInv(u);
    forall u, e | inv(u) && step(u, e).Some? ensures inv(step(u, e).value) {
      UndoStep(u, e);
    }
    var i := Init(first);
    SumAt(i.procs, first);
    assert i.procs - {first} == map[];
    Runs.Invariant(step, inv, i, es);
  }

  /** At most one process is inside, and the semaphore is free exactly when none is. */
  lemma MutualExclusion(first: nat, es: seq<Event>, s: State)
    requires Reaches(true, first, es, s)
    ensures forall p, q :: p in s.procs && q in s.procs && s.procs[p].inside && s.procs[q].inside ==> p == q
    ensures s.value == 1 <==> forall p :: p in s.procs ==> !s.procs[p].inside
    ensures s.value == 0 || s.value == 1
  {
    UndoConserves(first, es, s);
    SumNatural(s.procs);
    forall p, q | p in s.procs && q in s.procs && s.procs[p].inside && s.procs[q].inside ensures p == q {
      if p != q {
        SumAt(s.procs, p);
        SumAt(s.procs - {p}, q);
        SumNatural(s.procs - {p} - {q});
      }
    }
    forall p | p in s.procs ensures s.procs[p].inside ==> s.value == 0 {
      SumAt(s.procs, p);
      SumNatural(s.procs - {p});
    }
    if forall p :: p in s.procs ==> !s.procs[p].inside {
      SumZero(s.procs);
    }
  }

  // ----- the holder leaves -----

  predicate Leaves(e: Event) { e.Exit? || e.Unshare? }

  /** Without SEM_UNDO no adjustment is ever recorded. */
  ghost predicate PlainInv(s: State) {
    && 0 <= s.value <= 1
    && (forall p :: p in s.procs ==> s.procs[p].adj == 0)
    && (forall p :: p in s.procs && s.procs[p].inside ==> s.value == 0 && s.procs[p].inNs)
    && (forall p, q :: p in s.procs && q in s.procs && s.procs[p].inside && s.procs[q].inside ==> p == q)
  }

  lemma PlainStep(s: State, e: Event)
    requires PlainInv(s) && Step(false, s, e).Some?
    ensures PlainInv(Step(false, s, e).value)
  {
  }

  lemma PlainInvariant(first: nat, es: seq<Event>, s: State)
    requires Reaches(false, first, es, s)
    ensures PlainInv(s)
  {
    var step, inv := Machine(false), (u: State) => PlainInv(u);
    forall u, e | inv(u) && step(u, e).Some? ensures inv(step(u, e).value) {
      PlainStep(u, e);
    }
    Runs.Invariant(step, inv, Init(first), es);
  }

  ghost predicate SomeoneInside(s: State) { exists p :: p in s.procs && s.procs[p].inside }

  /** The process inside exits or leaves the namespace. */
  predicate HolderLeaves(s: State, e: Event) { Leaves(e) && e.p in s.procs && s.procs[e.p].inside }

  lemma HolderLeavesStep(s: State, e: Event)
    requires PlainInv(s) && Step(false, s, e).Some?
    ensures Lost(Step(false, s, e).value) <==> Lost(s) || HolderLeaves(s, e)
  {
    var t := Step(false, s, e).value;
    match e
    case P(p) => assert t.procs[p].inside;
    case V(p) =>
    case Fork(p, child) =>
      if Lost(t) {
        forall q | q in s.procs ensures !s.procs[q].inside { assert t.procs[q] == s.procs[q]; }
      }
    case _ =>
      if Lost(t) && !HolderLeaves(s, e) {
        forall q | q in s.procs ensures !s.procs[q].inside {
          if q != e.p { assert q in t.procs && t.procs[q] == s.procs[q]; }
        }
      }
  }

  /** Without SEM_UNDO the value tells whether the lock is held, or lost: it is 0 when a process is
      inside, or one has left while it was, and 1 otherwise. */
  lemma PlainValue(first: nat, es: seq<Event>, s: State)
    requires Reaches(false, first, es, s)
    ensures s.value ==
            if SomeoneInside(s)
               || Runs.Occurs(Machine(false), (u: State, e: Event) => HolderLeaves(u, e), Init(first), es)
            then 0 else 1
    ensures forall p, q :: p in s.procs && q in s.procs && s.procs[p].inside && s.procs[q].inside ==> p == q
  {
    var step, inv := Machine(false), (u: State) => PlainInv(u);
    var leaves, lost := (u: State, e: Event) => HolderLeaves(u, e), (u: State) => Lost(u);
    forall u, e | inv(u) && step(u, e).Some?
      ensures inv(step(u, e).value) && (lost(step(u, e).value) <==> lost(u) || leaves(u, e))
    {
      PlainStep(u, e);
      HolderLeavesStep(u, e);
    }
    Runs.OccursIff(step, inv, leaves, lost, Init(first), es);
    PlainInvariant(first, es, s);
  }

  /** A process inside can unlock, which raises the value to 1, with and without SEM_UNDO; then every
      process of the namespace can lock, which lowers it to 0. */
  lemma UnlockThenLock(undo: bool, first: nat, es: seq<Event>, s: State, p: nat)
    requires Reaches(undo, first, es, s) && p in s.procs && s.procs[p].inside
    ensures s.value == 0 && Step(undo, s, V(p)).Some?
    ensures var t := Step(undo, s, V(p)).value;
            && t.value == 1 && !SomeoneInside(t)
            && forall q :: q in t.procs && t.procs[q].inNs ==>
                 Step(undo, t, P(q)).Some? && Step(undo, t, P(q)).value.value == 0 &&
                 Step(undo, t, P(q)).value.procs[q].inside
  {
    if undo {
      MutualExclusion(first, es, s);
      UndoConserves(first, es, s);
    } else {
      PlainInvariant(first, es, s);
    }
  }

  /** When the process inside exits or leaves the namespace, the lock is free again exactly when the
      operations use SEM_UNDO. */
  lemma LeavingReleasesIffUndo(undo: bool, first: nat, es: seq<Event>, s: State, e: Event)
    requires Reaches(undo, first, es, s)
    requires Leaves(e) && e.p in s.procs && s.procs[e.p].inside
    ensures Step(undo, s, e).Some?
    ensures var t := Step(undo, s, e).value;
            && t.value == (if undo then 1 else 0)
            && forall q :: q in t.procs && t.procs[q].inNs ==> (Step(undo, t, P(q)).Some? <==> undo)
  {
    if undo {
      MutualExclusion(first, es, s);
      UndoConserves(first, es, s);
    } else {
      PlainInvariant(first, es, s);
    }
  }

  /** The semaphore is down, and no process has it or an adjustment. */
  ghost predicate Lost(s: State) {
    s.value == 0 && forall p :: p in s.procs ==> s.procs[p].adj == 0 && !s.procs[p].inside
  }

  lemma LostStep(s: State, e: Event)
    requires Lost(s) && Step(false, s, e).Some?
    ensures Lost(Step(false, s, e).value)
  {
  }

  lemma LostByLeaving(s: State, e: Event)
    requires PlainInv(s) && Leaves(e) && e.p in s.procs && s.procs[e.p].inside
    ensures Step(false, s, e).Some? && Lost(Step(false, s, e).value)
  {
  }

  /** Without SEM_UNDO the lock is then lost for good: whatever happens next, no P completes. */
  lemma LostForGood(first: nat, es: seq<Event>, s: State, e: Event, more: seq<Event>, t: State, p: nat)
    requires Reaches(false, first, es, s)
    requires Leaves(e) && e.p in s.procs && s.procs[e.p].inside
    requires Step(false, s, e).Some?
    requires Play(Machine(false), Step(false, s, e).value, more) == Some(t)
    ensures t.value == 0 && Step(false, t, P(p)).None?
  {
    PlainInvariant(first, es, s);
    LostByLeaving(s, e);
    var step, inv := Machine(false), (u: State) => Lost(u);
    forall u, e | inv(u) && step(u, e).Some? ensures inv(step(u, e).value) {
      LostStep(u, e);
    }
    Runs.Invariant(step, inv, Step(false, s, e).value, more);
  }

  // ----- the namespace -----

  /** Every process is in the namespace of the semaphore as long as nobody unshares. */
  lemma OnlyUnshareLeaves(undo: bool, first: nat, es: seq<Event>, s: State, p: nat)
    requires Reaches(undo, first, es, s) && p in s.procs
    requires forall e :: e in es ==> !e.Unshare?
    ensures s.procs[p].inNs
  {
    AllStay(undo, Init(first), es);
  }

  ghost predicate AllIn(s: State) { forall p :: p in s.procs ==> s.procs[p].inNs }

  lemma {:induction false} AllStay(undo: bool, s: State, es: seq<Event>)
    requires AllIn(s) && Play(Machine(undo), s, es).Some?
    requires forall e :: e in es ==> !e.Unshare?
    ensures AllIn(Play(Machine(undo), s, es).value)
    decreases |es|
  {
    if |es| != 0 {
      assert es[0] in es;
      AllStay(undo, Step(undo, s, es[0]).value, es[1..]);
    }
  }

  /** A process that unshares, and every child it forks from then on, is out of it until it ends: it can
      neither lock nor unlock the semaphore any more. */
  lemma UnshareShutsOut(undo: bool, s: State, p: nat, more: seq<Event>, t: State, child: nat)
    requires Step(undo, s, Unshare(p)).Some?
    requires Play(Machine(undo), Step(undo, s, Unshare(p)).value, more) == Some(t) && Exit(p) !in more
    ensures p in t.procs && Step(undo, t, P(p)).None? && Step(undo, t, V(p)).None?
    ensures Step(undo, t, Fork(p, child)).Some? ==>
              Step(undo, Step(undo, t, Fork(p, child)).value, P(child)).None?
  {
    StaysOut(undo, Step(undo, s, Unshare(p)).value, p, more);
  }

  predicate Out(s: State, p: nat) { p in s.procs && !s.procs[p].inNs }

  lemma {:induction false} StaysOut(undo: bool, s: State, p: nat, es: seq<Event>)
    requires Out(s, p) && Play(Machine(undo), s, es).Some? && Exit(p) !in es
    ensures Out(Play(Machine(undo), s, es).value, p)
    decreases |es|
  {
    if |es| != 0 {
      assert es[0] != Exit(p);
      StaysOut(undo, Step(undo, s, es[0]).value, p, es[1..]);
    }
  }
}
