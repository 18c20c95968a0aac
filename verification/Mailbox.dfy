/** prodcons.c and prodcons4.c: a zone of shared memory guarded by a semaphore, written and read one
    byte at a time by any number of producers and consumers.

    The state carries the history of the dates written and printed.  The history is written by the
    steps and never read by them. */
module Mailbox {
  import opened Runs
  import opened Text

  /** The call or the byte a process is about to do; inside the critical section except when idle. */
  datatype Pc =
    | ProducerIdle
    | WriteByte(date: string, next: nat)    // ctime_r: the date, its newline and a NUL
    | StripNewline(date: string)
    | ProducerPost
    | ConsumerIdle
    | TestFirst
    | PrintByte(shown: string)              // printf up to the NUL
    | ClearByte(next: nat)                  // memset
    | ConsumerPost

  /** `order[k]` is the number of the write that the k-th print shows; `pending` the number of the
      write that lies in the zone, not printed yet. */
  datatype History = History(written: seq<string>, printed: seq<string>, order: seq<nat>,
                             pending: Option<nat>, overwritten: nat)

  datatype State = State(sem: nat, zone: seq<char>, procs: map<nat, Pc>, h: History)

  /** A process starts, or makes its next step.  `date` is what ctime_r gives. */
  datatype Event = Arrive(p: nat, producer: bool) | Go(p: nat, date: string)

  const NO_HISTORY := History([], [], [], None, 0)

  function Init(size: nat): State {
    State(1, seq(size, _ => NUL), map[], NO_HISTORY)
  }

  /** ctime_r gives a line: some text and a newline, which the zone can hold with its NUL. */
  predicate ValidDate(d: string, size: nat) {
    && 2 <= |d| < size
    && d[|d| - 1] == '\n'
    && NUL !in d
    && '\n' !in d[..|d| - 1]
  }

  function Wrote(h: History, text: string): History {
    h.(written := h.written + [text], pending := Some(|h.written|),
       overwritten := h.overwritten + if h.pending.Some? then 1 else 0)
  }

  function Printed(h: History, text: string): History {
    h.(printed := h.printed + [text],
       order := h.order + [if h.pending.Some? then h.pending.value else |h.written|],
       pending := None)
  }

  /** What a process inside the critical section does next, without leaving it. */
  function InsideStep(s: State, p: nat, pc: Pc): Option<State> {
    match pc
    case WriteByte(d, n) =>
      var text := d + [NUL];
      if n >= |text| || n >= |s.zone| then None
      else Some(s.(zone := s.zone[n := text[n]],
                   procs := s.procs[p := if n + 1 == |text| then StripNewline(d) else WriteByte(d, n + 1)]))
    case StripNewline(_) =>
      var k := StrLen(s.zone);
      if k == 0 then None
      else
        var zone := s.zone[k - 1 := NUL];
        Some(s.(zone := zone, procs := s.procs[p := ProducerPost], h := Wrote(s.h, CStr(zone))))
    case TestFirst =>
      if |s.zone| == 0 then None
      else Some(s.(procs := s.procs[p := if s.zone[0] != NUL then PrintByte("") else ConsumerPost]))
    case PrintByte(shown) =>
      if |shown| >= |s.zone| then None
      else if s.zone[|shown|] != NUL then Some(s.(procs := s.procs[p := PrintByte(shown + [s.zone[|shown|]])]))
      else Some(s.(procs := s.procs[p := ClearByte(0)], h := Printed(s.h, shown)))
    case ClearByte(n) =>
      if n >= |s.zone| then Some(s.(procs := s.procs[p := ConsumerPost]))
      else Some(s.(zone := s.zone[n := NUL], procs := s.procs[p := ClearByte(n + 1)]))
    case _ => None
  }

  function Step(s: State, e: Event): Option<State> {
    match e
    case Arrive(p, producer) =>
      if p in s.procs then None
      else Some(s.(procs := s.procs[p := if producer then ProducerIdle else ConsumerIdle]))
    case Go(p, date) =>
      if p !in s.procs then None
      else
        match s.procs[p]
        case ProducerIdle =>
          if s.sem == 0 || !ValidDate(date, |s.zone|) then None
          else Some(s.(sem := s.sem - 1, procs := s.procs[p := WriteByte(date, 0)]))
        case ConsumerIdle =>
          if s.sem == 0 then None else Some(s.(sem := s.sem - 1, procs := s.procs[p := TestFirst]))
        case ProducerPost => Some(s.(sem := s.sem + 1, procs := s.procs[p := ProducerIdle]))
        case ConsumerPost => Some(s.(sem := s.sem + 1, procs := s.procs[p := ConsumerIdle]))
        case _ => InsideStep(s, p, s.procs[p])
  }

  function Machine(): (State, Event) -> Option<State> { (s, e) => Step(s, e) }

  /** The zone is large enough for the shortest line. */
  const MIN_SIZE: nat := 4

  ghost predicate Reaches(size: nat, es: seq<Event>, s: State) {
    size >= MIN_SIZE && Play(Machine(), Init(size), es) == Some(s)
  }

  // ----- the invariant -----

  predicate Inside(pc: Pc) { !pc.ProducerIdle? && !pc.ConsumerIdle? }

  function InsideSet(s: State): set<nat> { set p | p in s.procs && Inside(s.procs[p]) }

  predicate AllZero(zone: seq<char>) { forall i :: 0 <= i < |zone| ==> zone[i] == NUL }

  /** The zone holds exactly the text `w`: one complete date, without newline. */
  ghost predicate Holds(zone: seq<char>, w: string) {
    && 1 <= |w| < |zone|
    && zone[..|w|] == w && zone[|w|] == NUL
    && NUL !in w && '\n' !in w
  }

  /** What the zone is when nobody is writing or clearing it. */
  ghost predicate Settled(zone: seq<char>, h: History) {
    match h.pending
    case None => AllZero(zone)
    case Some(i) => i < |h.written| && Holds(zone, h.written[i])
  }

  ghost predicate InsideInv(zone: seq<char>, h: History, pc: Pc) {
    match pc
    case WriteByte(d, n) => ValidDate(d, |zone|) && n <= |d| && zone[..n] == d[..n]
    case StripNewline(d) => ValidDate(d, |zone|) && zone[..|d|] == d && zone[|d|] == NUL
    case ProducerPost => Settled(zone, h)
    case TestFirst => Settled(zone, h)
    case PrintByte(shown) => Settled(zone, h) && h.pending.Some? && shown <= h.written[h.pending.value]
    case ClearByte(n) => h.pending.None? && n <= |zone| && AllZero(zone[..n])
    case ConsumerPost => Settled(zone, h)
    case _ => true
  }

  ghost predicate HistoryInv(h: History) {
    && |h.order| == |h.printed|
    && (forall k :: 0 <= k < |h.order| ==> h.order[k] < |h.written| && h.printed[k] == h.written[h.order[k]])
    && (forall j, k :: 0 <= j < k < |h.order| ==> h.order[j] < h.order[k])
    && (h.pending.Some? ==> h.pending.value + 1 == |h.written|)
    && (h.pending.Some? ==> forall k :: 0 <= k < |h.order| ==> h.order[k] < h.pending.value)
    && (forall i :: 0 <= i < |h.written| ==> |h.written[i]| >= 1 && NUL !in h.written[i] && '\n' !in h.written[i])
    && |h.written| == |h.printed| + h.overwritten + (if h.pending.Some? then 1 else 0)
  }

  ghost predicate Inv(size: nat, s: State) {
    && size >= MIN_SIZE && |s.zone| == size
    && s.sem + |InsideSet(s)| == 1
    && (forall p :: p in InsideSet(s) ==> InsideInv(s.zone, s.h, s.procs[p]))
    && (InsideSet(s) == {} ==> Settled(s.zone, s.h))
    && HistoryInv(s.h)
  }

  lemma OnlyOne<T>(xs: set<T>, x: T, y: T)
    requires |xs| <= 1 && x in xs && y in xs
    ensures x == y
  {
    var rest := xs - {x};
    assert |rest| == |xs| - 1;
    assert rest == {};
  }

  lemma StrLenIs(z: seq<char>, w: string)
    requires |w| < |z| && z[|w|] == NUL
    requires forall i :: 0 <= i < |w| ==> z[i] == w[i] && z[i] != NUL
    ensures StrLen(z) == |w| && CStr(z) == w
  {
    assert StrLen(z) >= |w|;
  }

  /** Overwriting the newline of a date turns the line into the text in front of it. */
  lemma StripBytes(zone: seq<char>, d: string)
    requires ValidDate(d, |zone|) && zone[..|d|] == d && zone[|d|] == NUL
    ensures StrLen(zone) == |d|
    ensures CStr(zone[|d| - 1 := NUL]) == d[..|d| - 1] && Holds(zone[|d| - 1 := NUL], d[..|d| - 1])
  {
    forall i | 0 <= i < |d| ensures zone[i] == d[i] && zone[i] != NUL {
      assert zone[..|d|][i] == d[i] && d[i] in d;
    }
    StrLenIs(zone, d);
    var z, w := zone[|d| - 1 := NUL], d[..|d| - 1];
    forall i | 0 <= i < |w| ensures z[i] == w[i] && z[i] != NUL {
      assert zone[i] == d[i] && zone[i] != NUL;
    }
    StrLenIs(z, w);
  }

  lemma WroteHistory(h: History, text: string)
    requires HistoryInv(h) && |text| >= 1 && NUL !in text && '\n' !in text
    ensures HistoryInv(Wrote(h, text))
  {
  }

  lemma PrintedHistory(h: History)
    requires HistoryInv(h) && h.pending.Some?
    ensures HistoryInv(Printed(h, h.written[h.pending.value]))
  {
  }

  /** printf shows the text the zone holds, up to the NUL behind it. */
  lemma PrintBytes(zone: seq<char>, w: string, shown: string)
    requires Holds(zone, w) && shown <= w
    ensures |shown| < |zone|
    ensures zone[|shown|] != NUL ==> shown + [zone[|shown|]] <= w
    ensures zone[|shown|] == NUL ==> shown == w
  {
    if |shown| < |w| {
      assert zone[..|w|][|shown|] == w[|shown|] && w[|shown|] in w;
    }
  }

  /** The bytes and the history after a step inside. */
  ghost predicate StepInv(s: State, p: nat, t: State) {
    && |t.zone| == |s.zone| && t.sem == s.sem && HistoryInv(t.h)
    && p in t.procs && t.procs == s.procs[p := t.procs[p]] && Inside(t.procs[p])
    && InsideInv(t.zone, t.h, t.procs[p])
  }

  lemma StripInv(s: State, p: nat, d: string)
    requires HistoryInv(s.h) && InsideInv(s.zone, s.h, StripNewline(d))
    requires InsideStep(s, p, StripNewline(d)).Some?
    ensures StepInv(s, p, InsideStep(s, p, StripNewline(d)).value)
  {
    StripBytes(s.zone, d);
    var w := d[..|d| - 1];
    assert forall i :: 0 <= i < |w| ==> w[i] == d[i];
    WroteHistory(s.h, w);
  }

  lemma PrintInv(s: State, p: nat, shown: string)
    requires HistoryInv(s.h) && InsideInv(s.zone, s.h, PrintByte(shown))
    requires InsideStep(s, p, PrintByte(shown)).Some?
    ensures StepInv(s, p, InsideStep(s, p, PrintByte(shown)).value)
  {
    PrintBytes(s.zone, s.h.written[s.h.pending.value], shown);
    if s.zone[|shown|] == NUL { PrintedHistory(s.h); }
  }

  lemma WriteInv(s: State, p: nat, d: string, n: nat)
    requires HistoryInv(s.h) && InsideInv(s.zone, s.h, WriteByte(d, n))
    requires InsideStep(s, p, WriteByte(d, n)).Some?
    ensures StepInv(s, p, InsideStep(s, p, WriteByte(d, n)).value)
  {
    var t := InsideStep(s, p, WriteByte(d, n)).value;
    assert t.zone[..n + 1] == s.zone[..n] + [(d + [NUL])[n]];
  }

  lemma ClearInv(s: State, p: nat, n: nat)
    requires HistoryInv(s.h) && InsideInv(s.zone, s.h, ClearByte(n))
    requires InsideStep(s, p, ClearByte(n)).Some?
    ensures StepInv(s, p, InsideStep(s, p, ClearByte(n)).value)
  {
    assert n == |s.zone| ==> s.zone[..n] == s.zone;
  }

  lemma InsideStepInv(s: State, p: nat, pc: Pc)
    requires MIN_SIZE <= |s.zone| && HistoryInv(s.h) && Inside(pc) && InsideInv(s.zone, s.h, pc)
    requires InsideStep(s, p, pc).Some?
    ensures StepInv(s, p, InsideStep(s, p, pc).value)
  {
    match pc
    case StripNewline(d) => StripInv(s, p, d);
    case PrintByte(shown) => PrintInv(s, p, shown);
    case WriteByte(d, n) => WriteInv(s, p, d, n);
    case ClearByte(n) => ClearInv(s, p, n);
    case _ =>
  }

  /** What a written date is: the line ctime_r gave, without its newline. */
  lemma StripWrites(s: State, p: nat, d: string)
    requires MIN_SIZE <= |s.zone| && InsideInv(s.zone, s.h, StripNewline(d))
    ensures InsideStep(s, p, StripNewline(d)).Some?
    ensures InsideStep(s, p, StripNewline(d)).value.h.written == s.h.written + [d[..|d| - 1]]
  {
    StripBytes(s.zone, d);
  }

  lemma OnlyMember(s: State, p: nat)
    requires |InsideSet(s)| <= 1 && p in s.procs && Inside(s.procs[p])
    ensures InsideSet(s) == {p}
  {
    assert p in InsideSet(s);
    forall q | q in InsideSet(s) ensures q == p { OnlyOne(InsideSet(s), p, q); }
  }

  lemma InsideSetAfter(s: State, t: State, p: nat)
    requires p in t.procs && t.procs == s.procs[p := t.procs[p]]
    ensures InsideSet(t) == if Inside(t.procs[p]) then InsideSet(s) + {p} else InsideSet(s) - {p}
  {
    forall q ensures q in InsideSet(t) <==> if q == p then Inside(t.procs[p]) else q in InsideSet(s) {
      assert q in t.procs <==> q == p || q in s.procs;
    }
  }

  lemma ArriveKeepsInv(size: nat, s: State, p: nat, producer: bool)
    requires Inv(size, s) && Step(s, Arrive(p, producer)).Some?
    ensures Inv(size, Step(s, Arrive(p, producer)).value)
  {
    InsideSetAfter(s, Step(s, Arrive(p, producer)).value, p);
    assert p !in InsideSet(s);
  }

  lemma PKeepsInv(size: nat, s: State, p: nat, date: string)
    requires Inv(size, s) && Step(s, Go(p, date)).Some? && !Inside(s.procs[p])
    ensures Inv(size, Step(s, Go(p, date)).value)
  {
    InsideSetAfter(s, Step(s, Go(p, date)).value, p);
    assert p !in InsideSet(s);
  }

  lemma VKeepsInv(size: nat, s: State, p: nat, date: string)
    requires Inv(size, s) && Step(s, Go(p, date)).Some?
    requires s.procs[p].ProducerPost? || s.procs[p].ConsumerPost?
    ensures Inv(size, Step(s, Go(p, date)).value)
  {
    InsideSetAfter(s, Step(s, Go(p, date)).value, p);
    OnlyMember(s, p);
  }

  lemma InsideKeepsInv(size: nat, s: State, p: nat, date: string)
    requires Inv(size, s) && Step(s, Go(p, date)).Some?
    requires Inside(s.procs[p]) && !s.procs[p].ProducerPost? && !s.procs[p].ConsumerPost?
    ensures Inv(size, Step(s, Go(p, date)).value)
  {
    var t := Step(s, Go(p, date)).value;
    OnlyMember(s, p);
    InsideStepInv(s, p, s.procs[p]);
    InsideSetAfter(s, t, p);
    assert InsideSet(t) == {p};
  }

  lemma StepKeepsInv(size: nat, s: State, e: Event)
    requires Inv(size, s) && Step(s, e).Some?
    ensures Inv(size, Step(s, e).value)
  {
    match e
    case Arrive(p, producer) => ArriveKeepsInv(size, s, p, producer);
    case Go(p, date) =>
      if !Inside(s.procs[p]) {
        PKeepsInv(size, s, p, date);
      } else if s.procs[p].ProducerPost? || s.procs[p].ConsumerPost? {
        VKeepsInv(size, s, p, date);
      } else {
        InsideKeepsInv(size, s, p, date);
      }
  }

  lemma ReachableInv(size: nat, es: seq<Event>, s: State)
    requires Reaches(size, es, s)
    ensures Inv(size, s)
  {
    var step, inv := Machine(), (u: State) => Inv(size, u);
    forall u, e | inv(u) && step(u, e).Some? ensures inv(step(u, e).value) {
      StepKeepsInv(size, u, e);
    }
    assert InsideSet(Init(size)) == {};
    Runs.Invariant(step, inv, Init(size), es);
  }

  // ----- the theorems -----

  /** Semaphore value and processes inside always add up to 1, so no two processes are inside; and when
      none is, the zone is all zero or holds exactly one complete date, the last one written. */
  lemma ZoneSafety(size: nat, es: seq<Event>, s: State)
    requires Reaches(size, es, s)
    ensures s.sem + |InsideSet(s)| == 1
    ensures forall p, q :: p in InsideSet(s) && q in InsideSet(s) ==> p == q
    ensures InsideSet(s) == {} ==>
              if s.h.pending.Some? then |s.h.written| > 0 && Holds(s.zone, s.h.written[|s.h.written| - 1])
              else AllZero(s.zone)
  {
    ReachableInv(size, es, s);
    forall p, q | p in InsideSet(s) && q in InsideSet(s) ensures p == q {
      OnlyOne(InsideSet(s), p, q);
    }
  }

  /** `xs` is `ys` with some elements left out; `order` says which ones are kept. */
  ghost predicate Subsequence(xs: seq<string>, ys: seq<string>, order: seq<nat>) {
    && |order| == |xs|
    && (forall k :: 0 <= k < |xs| ==> order[k] < |ys| && xs[k] == ys[order[k]])
    && (forall j, k :: 0 <= j < k < |order| ==> order[j] < order[k])
  }

  /** No torn date is printed: the prints are a subsequence of the writes, so each shows a date some
      producer wrote whole, in the order of the writes, and no write is shown twice. */
  lemma PrintsAreWrites(size: nat, es: seq<Event>, s: State)
    requires Reaches(size, es, s)
    ensures Subsequence(s.h.printed, s.h.written, s.h.order)
    ensures forall k :: 0 <= k < |s.h.printed| ==>
              |s.h.printed[k]| >= 1 && '\n' !in s.h.printed[k] && NUL !in s.h.printed[k]
  {
    ReachableInv(size, es, s);
  }

  lemma WritesCount(size: nat, es: seq<Event>, s: State)
    requires Reaches(size, es, s)
    ensures |s.h.printed| + s.h.overwritten <= |s.h.written|
  {
    ReachableInv(size, es, s);
  }

  /** Every write has been printed, has been overwritten, or still lies in the zone; and outside the
      critical section it lies there exactly when the first byte is not NUL. */
  lemma WritesAreAccountedFor(size: nat, es: seq<Event>, s: State)
    requires Reaches(size, es, s) && InsideSet(s) == {}
    ensures |s.zone| == size
    ensures |s.h.written| == |s.h.printed| + s.h.overwritten + (if s.zone[0] != NUL then 1 else 0)
  {
    ReachableInv(size, es, s);
    if s.h.pending.Some? {
      var w := s.h.written[s.h.pending.value];
      assert s.zone[0] == w[0] && w[0] in w;
    }
  }

  // ----- one visit -----

  ghost predicate OnlyBy(run: seq<Event>, p: nat) { forall i :: 0 <= i < |run| ==> run[i].Go? && run[i].p == p }

  /** A visit of process `p` in progress: `run` leads from `s` to `t`, and only `p` has moved. */
  ghost predicate Visiting(size: nat, s: State, p: nat, run: seq<Event>, t: State) {
    && Play(Machine(), s, run) == Some(t) && OnlyBy(run, p)
    && Inv(size, t) && p in t.procs && t.procs == s.procs[p := t.procs[p]]
  }

  lemma MovesOnly(s: State, p: nat, date: string)
    requires Step(s, Go(p, date)).Some?
    ensures var t := Step(s, Go(p, date)).value; p in t.procs && t.procs == s.procs[p := t.procs[p]]
  {
  }

  lemma Advance(size: nat, s: State, p: nat, run: seq<Event>, t: State, date: string)
    returns (run': seq<Event>, t': State)
    requires Visiting(size, s, p, run, t) && Step(t, Go(p, date)).Some?
    ensures Visiting(size, s, p, run', t') && Some(t') == Step(t, Go(p, date))
  {
    run', t' := run + [Go(p, date)], Step(t, Go(p, date)).value;
    Runs.PlayAppend(Machine(), s, run, Go(p, date));
    StepKeepsInv(size, t, Go(p, date));
    MovesOnly(t, p, date);
    assert OnlyBy(run', p);
  }

  /** A producer that finds the semaphore free leaves the whole date in the zone, over whatever was
      there, and the semaphore free.  It prints nothing, and a date that was not printed yet is lost. */
  lemma ProducerVisit(size: nat, s: State, p: nat, d: string) returns (run: seq<Event>, t: State)
    requires Inv(size, s) && InsideSet(s) == {} && p in s.procs && s.procs[p].ProducerIdle?
    requires ValidDate(d, size)
    ensures Play(Machine(), s, run) == Some(t) && OnlyBy(run, p)
    ensures t.procs == s.procs && t.sem == 1 && Holds(t.zone, d[..|d| - 1])
    ensures t.h.written == s.h.written + [d[..|d| - 1]] && t.h.pending == Some(|s.h.written|)
    ensures t.h.printed == s.h.printed && t.h.order == s.h.order
    ensures t.h.overwritten == s.h.overwritten + if s.h.pending.Some? then 1 else 0
  {
    run, t := Advance(size, s, p, [], s, d);
    run, t := WriteAll(size, s, p, run, t, d);
    run, t := StripAndPost(size, s, p, run, t, d);
  }

  lemma StripAndPost(size: nat, s: State, p: nat, run0: seq<Event>, t0: State, d: string)
    returns (run: seq<Event>, t: State)
    requires Visiting(size, s, p, run0, t0) && t0.procs[p] == StripNewline(d) && t0.sem == 0
    requires InsideInv(t0.zone, t0.h, StripNewline(d)) && |t0.zone| == size && ValidDate(d, size)
    ensures Visiting(size, s, p, run, t) && t.procs[p] == ProducerIdle && t.sem == 1
    ensures t.h == Wrote(t0.h, d[..|d| - 1]) && Holds(t.zone, d[..|d| - 1])
  {
    StripBytes(t0.zone, d);
    run, t := Advance(size, s, p, run0, t0, d);
    run, t := Advance(size, s, p, run, t, d);
  }

  lemma WriteAll(size: nat, s: State, p: nat, run0: seq<Event>, t0: State, d: string)
    returns (run: seq<Event>, t: State)
    requires Visiting(size, s, p, run0, t0) && t0.procs[p] == WriteByte(d, 0) && t0.sem == 0
    ensures Visiting(size, s, p, run, t) && t.procs[p] == StripNewline(d) && t.sem == 0 && t.h == t0.h
    ensures InsideInv(t.zone, t.h, StripNewline(d)) && |t.zone| == size
  {
    run, t := run0, t0;
    while t.procs[p].WriteByte?
      invariant Visiting(size, s, p, run, t) && t.sem == 0 && t.h == t0.h
      invariant t.procs[p] == StripNewline(d) ||
                (t.procs[p].WriteByte? && t.procs[p].date == d && t.procs[p].next <= |d|)
      decreases t.procs[p].WriteByte?, if t.procs[p].WriteByte? then |d| - t.procs[p].next else 0
    {
      InsideOne(size, t, p);
      run, t := Advance(size, s, p, run, t, d);
    }
    InsideOne(size, t, p);
  }

  lemma InsideOne(size: nat, t: State, p: nat)
    requires Inv(size, t) && p in t.procs && Inside(t.procs[p])
    ensures InsideInv(t.zone, t.h, t.procs[p]) && |t.zone| == size
  {
    assert p in InsideSet(t);
  }

  /** A consumer that finds the semaphore free prints the date that lies in the zone, whole, and leaves
      the zone all zero; when nothing lies there it changes nothing. */
  lemma ConsumerVisit(size: nat, s: State, p: nat) returns (run: seq<Event>, t: State)
    requires Inv(size, s) && InsideSet(s) == {} && p in s.procs && s.procs[p].ConsumerIdle?
    ensures Play(Machine(), s, run) == Some(t) && OnlyBy(run, p)
    ensures t.procs == s.procs && t.sem == 1
    ensures s.h.pending.Some? ==> ShownLast(s.h, t.h) && AllZero(t.zone)
    ensures s.h.pending.None? ==> t.h == s.h && t.zone == s.zone
  {
    run, t := Advance(size, s, p, [], s, "");
    FirstByte(s.zone, s.h);
    run, t := Advance(size, s, p, run, t, "");
    if s.h.pending.Some? {
      run, t := PrintAndClear(size, s, p, run, t);
    }
    InsideOne(size, t, p);
    run, t := Advance(size, s, p, run, t, "");
  }

  lemma PrintAndClear(size: nat, s: State, p: nat, run0: seq<Event>, t0: State) returns (run: seq<Event>, t: State)
    requires Visiting(size, s, p, run0, t0) && t0.procs[p] == PrintByte("") && t0.sem == 0
    requires t0.h == s.h && t0.zone == s.zone && s.h.pending.Some? && HistoryInv(s.h)
    ensures Visiting(size, s, p, run, t) && t.procs[p] == ConsumerPost && t.sem == 0 && ShownLast(s.h, t.h)
  {
    run, t := PrintAll(size, s, p, run0, t0);
    LastWritten(s.h);
    run, t := ClearAll(size, s, p, run, t);
  }

  /** The last date written has been printed in between, and nothing else has happened. */
  ghost predicate ShownLast(h: History, after: History) {
    && |h.written| > 0
    && after.printed == h.printed + [h.written[|h.written| - 1]]
    && after.order == h.order + [|h.written| - 1]
    && after.written == h.written && after.pending == None && after.overwritten == h.overwritten
  }

  /** What printing the pending date does to the history. */
  lemma LastWritten(h: History)
    requires HistoryInv(h) && h.pending.Some?
    ensures ShownLast(h, Printed(h, h.written[h.pending.value]))
  {
  }

  lemma FirstByte(zone: seq<char>, h: History)
    requires Settled(zone, h) && |zone| > 0
    ensures zone[0] != NUL <==> h.pending.Some?
  {
    if h.pending.Some? {
      PrintBytes(zone, h.written[h.pending.value], "");
    }
  }

  lemma PrintAll(size: nat, s: State, p: nat, run0: seq<Event>, t0: State) returns (run: seq<Event>, t: State)
    requires Visiting(size, s, p, run0, t0) && t0.procs[p] == PrintByte("") && t0.sem == 0
    requires t0.h == s.h && t0.zone == s.zone && s.h.pending.Some?
    ensures Visiting(size, s, p, run, t) && t.procs[p] == ClearByte(0) && t.sem == 0
    ensures s.h.pending.value < |s.h.written| && t.h == Printed(s.h, s.h.written[s.h.pending.value])
  {
    run, t := run0, t0;
    InsideOne(size, t, p);
    var w := s.h.written[s.h.pending.value];
    while t.procs[p].PrintByte?
      invariant Visiting(size, s, p, run, t) && t.sem == 0
      invariant t.procs[p].PrintByte? ==> t.h == s.h && t.zone == s.zone && t.procs[p].shown <= w
      invariant !t.procs[p].PrintByte? ==> t.procs[p] == ClearByte(0) && t.h == Printed(s.h, w)
      decreases t.procs[p].PrintByte?, if t.procs[p].PrintByte? then |w| - |t.procs[p].shown| else 0
    {
      PrintBytes(t.zone, w, t.procs[p].shown);
      run, t := Advance(size, s, p, run, t, "");
    }
  }

  lemma ClearAll(size: nat, s: State, p: nat, run0: seq<Event>, t0: State) returns (run: seq<Event>, t: State)
    requires Visiting(size, s, p, run0, t0) && t0.procs[p] == ClearByte(0) && t0.sem == 0
    ensures Visiting(size, s, p, run, t) && t.procs[p] == ConsumerPost && t.sem == 0 && t.h == t0.h
  {
    run, t := run0, t0;
    while t.procs[p].ClearByte?
      invariant Visiting(size, s, p, run, t) && t.sem == 0 && t.h == t0.h
      invariant t.procs[p].ConsumerPost? || (t.procs[p].ClearByte? && t.procs[p].next <= size)
      decreases t.procs[p].ClearByte?, if t.procs[p].ClearByte? then size - t.procs[p].next else 0
    {
      run, t := Advance(size, s, p, run, t, "");
    }
  }
}
