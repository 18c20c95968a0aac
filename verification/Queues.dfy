/** prodcons3.c and prodcons2.c: the same dates sent through a POSIX message queue, which delivers by
    priority, and a System V queue, which delivers by type. */
module Queues {
  import opened Runs
  import Mailbox

  /** A message under its priority (POSIX) or its type (System V). */
  datatype Msg = Msg(tag: nat, date: string)

  /** mq_send: behind every message of the same or a higher priority. */
  function Insert(q: seq<Msg>, m: Msg): (r: seq<Msg>)
    ensures |r| == |q| + 1
  {
    if |q| == 0 || q[0].tag < m.tag then [m] + q else [q[0]] + Insert(q[1..], m)
  }

  /** msgrcv with a positive type: where the first message of that type is, |q| when there is none. */
  function FirstOf(q: seq<Msg>, tag: nat): (i: nat)
    ensures i <= |q|
    ensures i < |q| ==> q[i].tag == tag
    ensures forall j :: 0 <= j < i ==> q[j].tag != tag
  {
    if |q| == 0 || q[0].tag == tag then 0 else 1 + FirstOf(q[1..], tag)
  }

  /** `sent` and `received` are the histories. */
  datatype State = State(queue: seq<Msg>, sent: seq<Msg>, received: seq<Msg>)

  const EMPTY := State([], [], [])

  // ----- POSIX -----

  datatype MqEvent = MqSend(m: Msg) | MqReceive

  /** Sending blocks while `maxmsg` messages are queued, receiving while none is. */
  function MqStep(maxmsg: nat, s: State, e: MqEvent): Option<State> {
    match e
    case MqSend(m) =>
      if |s.queue| >= maxmsg then None
      else Some(s.(queue := Insert(s.queue, m), sent := s.sent + [m]))
    case MqReceive =>
      if |s.queue| == 0 then None
      else Some(s.(queue := s.queue[1..], received := s.received + [s.queue[0]]))
  }

  function Mq(maxmsg: nat): (State, MqEvent) -> Option<State> { (s, e) => MqStep(maxmsg, s, e) }

  // ----- System V -----

  datatype SysvEvent = MsgSnd(m: Msg) | MsgRcv(tag: nat)

  function SysvStep(s: State, e: SysvEvent): Option<State> {
    match e
    case MsgSnd(m) => Some(s.(queue := s.queue + [m], sent := s.sent + [m]))
    case MsgRcv(tag) =>
      var i := FirstOf(s.queue, tag);
      if i == |s.queue| then None
      else Some(s.(queue := s.queue[..i] + s.queue[i + 1..], received := s.received + [s.queue[i]]))
  }

  function Sysv(): (State, SysvEvent) -> Option<State> { (s, e) => SysvStep(s, e) }

  // ----- one tag at a time -----

  /** The messages of one tag, in order. */
  function Only(ms: seq<Msg>, tag: nat): seq<Msg> {
    if |ms| == 0 then []
    else if ms[0].tag == tag then [ms[0]] + Only(ms[1..], tag)
    else Only(ms[1..], tag)
  }

  lemma {:induction false} OnlyConcat(a: seq<Msg>, b: seq<Msg>, tag: nat)
    ensures Only(a + b, tag) == Only(a, tag) + Only(b, tag)
    decreases |a|
  {
    if |a| == 0 {
      assert a + b == b;
    } else {
      assert (a + b)[1..] == a[1..] + b;
      OnlyConcat(a[1..], b, tag);
    }
  }

  lemma {:induction false} OnlyAll(ms: seq<Msg>, tag: nat)
    requires forall i :: 0 <= i < |ms| ==> ms[i].tag == tag
    ensures Only(ms, tag) == ms
    decreases |ms|
  {
    if |ms| != 0 { OnlyAll(ms[1..], tag); }
  }

  lemma {:induction false} OnlyNone(ms: seq<Msg>, tag: nat)
    requires forall i :: 0 <= i < |ms| ==> ms[i].tag != tag
    ensures Only(ms, tag) == []
    decreases |ms|
  {
    if |ms| != 0 { OnlyNone(ms[1..], tag); }
  }

  /** Highest priority first. */
  ghost predicate Sorted(q: seq<Msg>) {
    forall i, j :: 0 <= i < j < |q| ==> q[i].tag >= q[j].tag
  }

  lemma {:induction false} InsertTags(q: seq<Msg>, m: Msg, bound: nat)
    requires m.tag <= bound && forall i :: 0 <= i < |q| ==> q[i].tag <= bound
    ensures forall i :: 0 <= i < |Insert(q, m)| ==> Insert(q, m)[i].tag <= bound
    decreases |q|
  {
    if |q| != 0 && q[0].tag >= m.tag {
      InsertTags(q[1..], m, bound);
    }
  }

  lemma {:induction false} InsertSorted(q: seq<Msg>, m: Msg)
    requires Sorted(q)
    ensures Sorted(Insert(q, m))
    decreases |q|
  {
    if |q| != 0 && q[0].tag >= m.tag {
      InsertSorted(q[1..], m);
      InsertTags(q[1..], m, q[0].tag);
    }
  }

  lemma {:induction false} InsertOnly(q: seq<Msg>, m: Msg, tag: nat)
    requires Sorted(q)
    ensures Only(Insert(q, m), tag) == Only(q, tag) + Only([m], tag)
    decreases |q|
  {
    if |q| == 0 {
    } else if q[0].tag < m.tag {
      assert ([m] + q)[1..] == q;
      if tag == m.tag { OnlyNone(q, tag); }
    } else {
      InsertOnly(q[1..], m, tag);
      assert Insert(q, m)[1..] == Insert(q[1..], m);
    }
  }

  /** For every tag, what was received and what is queued, in order, is what was sent. */
  ghost predicate PerTag(s: State) {
    forall tag :: Only(s.received, tag) + Only(s.queue, tag) == Only(s.sent, tag)
  }

  ghost predicate MqInv(maxmsg: nat, s: State) { Sorted(s.queue) && |s.queue| <= maxmsg && PerTag(s) }

  lemma MqStepInv(maxmsg: nat, s: State, e: MqEvent)
    requires MqInv(maxmsg, s) && MqStep(maxmsg, s, e).Some?
    ensures MqInv(maxmsg, MqStep(maxmsg, s, e).value)
  {
    var t := MqStep(maxmsg, s, e).value;
    if e.MqSend? { InsertSorted(s.queue, e.m); }
    forall tag ensures Only(t.received, tag) + Only(t.queue, tag) == Only(t.sent, tag) {
      assert Only(s.received, tag) + Only(s.queue, tag) == Only(s.sent, tag);
      if e.MqSend? {
        InsertOnly(s.queue, e.m, tag);
        OnlyConcat(s.sent, [e.m], tag);
      } else {
        OnlyConcat(s.received, [s.queue[0]], tag);
        OnlyConcat([s.queue[0]], s.queue[1..], tag);
        assert [s.queue[0]] + s.queue[1..] == s.queue;
      }
    }
  }

  lemma SysvStepInv(s: State, e: SysvEvent)
    requires PerTag(s) && SysvStep(s, e).Some?
    ensures PerTag(SysvStep(s, e).value)
  {
    var t := SysvStep(s, e).value;
    forall tag ensures Only(t.received, tag) + Only(t.queue, tag) == Only(t.sent, tag) {
      assert Only(s.received, tag) + Only(s.queue, tag) == Only(s.sent, tag);
      if e.MsgSnd? {
        OnlyConcat(s.queue, [e.m], tag);
        OnlyConcat(s.sent, [e.m], tag);
      } else {
        SysvTake(s.queue, FirstOf(s.queue, e.tag), tag);
        OnlyConcat(s.received, [s.queue[FirstOf(s.queue, e.tag)]], tag);
      }
    }
  }

  /** Taking out the first message of a tag moves it to the front of that tag's messages and leaves
      the others in place. */
  lemma SysvTake(q: seq<Msg>, i: nat, tag: nat)
    requires i < |q| && forall j :: 0 <= j < i ==> q[j].tag != q[i].tag
    ensures Only(q, tag) == Only([q[i]], tag) + Only(q[..i] + q[i + 1..], tag)
  {
    assert q == q[..i] + ([q[i]] + q[i + 1..]);
    OnlyConcat(q[..i], [q[i]] + q[i + 1..], tag);
    OnlyConcat([q[i]], q[i + 1..], tag);
    OnlyConcat(q[..i], q[i + 1..], tag);
    if tag == q[i].tag { OnlyNone(q[..i], tag); }
  }

  /** In every run of a POSIX queue, whatever the priorities, no message is lost, doubled or overtaken
      by one of its own priority, the queue is sorted by priority and never above its capacity. */
  lemma MqPerPriority(maxmsg: nat, es: seq<MqEvent>, s: State)
    requires Play(Mq(maxmsg), EMPTY, es) == Some(s)
    ensures Sorted(s.queue) && |s.queue| <= maxmsg && PerTag(s)
  {
    var step, inv := Mq(maxmsg), (u: State) => MqInv(maxmsg, u);
    forall u, e | inv(u) && step(u, e).Some? ensures inv(step(u, e).value) {
      MqStepInv(maxmsg, u, e);
    }
    Runs.Invariant(step, inv, EMPTY, es);
  }

  /** The same for the types of a System V queue. */
  lemma SysvPerType(es: seq<SysvEvent>, s: State)
    requires Play(Sysv(), EMPTY, es) == Some(s)
    ensures PerTag(s)
  {
    var step, inv := Sysv(), (u: State) => PerTag(u);
    forall u, e | inv(u) && step(u, e).Some? ensures inv(step(u, e).value) {
      SysvStepInv(u, e);
    }
    Runs.Invariant(step, inv, EMPTY, es);
  }

  // ----- the programs: one tag only -----

  const MAXMSG: nat := 2

  /** producer3 sends at priority 0 only. */
  function Producer3(): (State, MqEvent) -> Option<State> {
    (s: State, e: MqEvent) => if e.MqSend? && e.m.tag != 0 then None else MqStep(MAXMSG, s, e)
  }

  /** producer2 sends type 1 only, and consumer2 asks for type 1. */
  function Producer2(): (State, SysvEvent) -> Option<State> {
    (s: State, e: SysvEvent) =>
      if (e.MsgSnd? && e.m.tag != 1) || (e.MsgRcv? && e.tag != 1) then None else SysvStep(s, e)
  }

  // ----- what blocks, and what is delivered -----

  /** mq_send blocks exactly while the queue is full and mq_receive exactly while it is empty; the message
      received is the oldest of the highest priority queued. */
  lemma MqBlocksIff(maxmsg: nat, es: seq<MqEvent>, s: State, m: Msg)
    requires Play(Mq(maxmsg), EMPTY, es) == Some(s)
    ensures MqStep(maxmsg, s, MqSend(m)).None? <==> |s.queue| == maxmsg
    ensures MqStep(maxmsg, s, MqReceive).None? <==> s.queue == []
    ensures s.queue != [] ==>
              var t := MqStep(maxmsg, s, MqReceive).value;
              && |t.received| == |s.received| + 1
              && var r := t.received[|s.received|];
                 && t.received == s.received + [r] && t.sent == s.sent && |t.queue| == |s.queue| - 1
                 && (forall q :: q in s.queue ==> q.tag <= r.tag)
                 && Only(s.queue, r.tag) != [] && Only(s.queue, r.tag)[0] == r
  {
    MqPerPriority(maxmsg, es, s);
  }

  /** msgsnd never blocks, and msgrcv exactly while no message of the type is queued; the message received
      is the oldest of that type. */
  lemma SysvBlocksIff(s: State, m: Msg, tag: nat)
    ensures SysvStep(s, MsgSnd(m)).Some?
    ensures SysvStep(s, MsgRcv(tag)).None? <==> forall q :: q in s.queue ==> q.tag != tag
    ensures SysvStep(s, MsgRcv(tag)).Some? ==>
              var t := SysvStep(s, MsgRcv(tag)).value;
              && |t.received| == |s.received| + 1
              && var r := t.received[|s.received|];
                 && t.received == s.received + [r] && t.sent == s.sent && |t.queue| == |s.queue| - 1
                 && Only(s.queue, tag) != [] && Only(s.queue, tag)[0] == r
  {
    var i := FirstOf(s.queue, tag);
    if i < |s.queue| {
      assert s.queue[i] in s.queue;
      SysvTake(s.queue, i, tag);
    }
  }

  function Messages(dates: seq<string>, tag: nat): (ms: seq<Msg>)
    ensures |ms| == |dates|
  {
    seq(|dates|, i requires 0 <= i < |dates| => Msg(tag, dates[i]))
  }

  /** Every list of dates can go through the queue of prodcons3. */
  lemma Prodcons3Delivers(dates: seq<string>) returns (es: seq<MqEvent>, s: State)
    ensures Play(Producer3(), EMPTY, es) == Some(s)
    ensures s.sent == Messages(dates, 0) && s.received == Messages(dates, 0) && s.queue == []
  {
    es, s := [], EMPTY;
    var i := 0;
    while i < |dates|
      invariant 0 <= i <= |dates|
      invariant Play(Producer3(), EMPTY, es) == Some(s)
      invariant s.sent == Messages(dates, 0)[..i] && s.received == s.sent && s.queue == []
    {
      var m := Msg(0, dates[i]);
      assert Messages(dates, 0)[..i + 1] == Messages(dates, 0)[..i] + [m];
      Runs.PlayAppend(Producer3(), EMPTY, es, MqSend(m));
      es, s := es + [MqSend(m)], MqStep(MAXMSG, s, MqSend(m)).value;
      Runs.PlayAppend(Producer3(), EMPTY, es, MqReceive);
      es, s := es + [MqReceive], MqStep(MAXMSG, s, MqReceive).value;
      i := i + 1;
    }
  }

  /** And through the one of prodcons2. */
  lemma Prodcons2Delivers(dates: seq<string>) returns (es: seq<SysvEvent>, s: State)
    ensures Play(Producer2(), EMPTY, es) == Some(s)
    ensures s.sent == Messages(dates, 1) && s.received == Messages(dates, 1) && s.queue == []
  {
    es, s := [], EMPTY;
    var i := 0;
    while i < |dates|
      invariant 0 <= i <= |dates|
      invariant Play(Producer2(), EMPTY, es) == Some(s)
      invariant s.sent == Messages(dates, 1)[..i] && s.received == s.sent && s.queue == []
    {
      var m := Msg(1, dates[i]);
      assert Messages(dates, 1)[..i + 1] == Messages(dates, 1)[..i] + [m];
      Runs.PlayAppend(Producer2(), EMPTY, es, MsgSnd(m));
      es, s := es + [MsgSnd(m)], SysvStep(s, MsgSnd(m)).value;
      assert s.queue == [m];
      Runs.PlayAppend(Producer2(), EMPTY, es, MsgRcv(1));
      es, s := es + [MsgRcv(1)], SysvStep(s, MsgRcv(1)).value;
      i := i + 1;
    }
  }

  /** The third date sent without a receive blocks: two fill the queue. */
  lemma TwoFillTheQueue(a: string, b: string, c: string) returns (es: seq<MqEvent>, s: State)
    ensures Play(Producer3(), EMPTY, es) == Some(s) && es == [MqSend(Msg(0, a)), MqSend(Msg(0, b))]
    ensures s.queue == [Msg(0, a), Msg(0, b)] && MqStep(MAXMSG, s, MqSend(Msg(0, c))).None?
  {
    es, s := [MqSend(Msg(0, a))], MqStep(MAXMSG, EMPTY, MqSend(Msg(0, a))).value;
    Runs.PlayAppend(Producer3(), EMPTY, [], MqSend(Msg(0, a)));
    assert [] + [MqSend(Msg(0, a))] == es;
    Runs.PlayAppend(Producer3(), EMPTY, es, MqSend(Msg(0, b)));
    assert s.queue == [Msg(0, a)];
    assert Insert(s.queue, Msg(0, b)) == [Msg(0, a)] + Insert([], Msg(0, b));
    es, s := es + [MqSend(Msg(0, b))], MqStep(MAXMSG, s, MqSend(Msg(0, b))).value;
  }

  ghost predicate AllTagged(ms: seq<Msg>, tag: nat) { forall i :: 0 <= i < |ms| ==> ms[i].tag == tag }

  lemma OneTagIsFifo(s: State, tag: nat)
    requires PerTag(s) && AllTagged(s.sent, tag) && AllTagged(s.received, tag) && AllTagged(s.queue, tag)
    ensures s.received + s.queue == s.sent
  {
    OnlyAll(s.received, tag);
    OnlyAll(s.queue, tag);
    OnlyAll(s.sent, tag);
    assert Only(s.received, tag) + Only(s.queue, tag) == Only(s.sent, tag);
  }

  lemma {:induction false} InsertAllTagged(q: seq<Msg>, m: Msg, tag: nat)
    requires AllTagged(q, tag) && m.tag == tag
    ensures AllTagged(Insert(q, m), tag)
    decreases |q|
  {
    if |q| != 0 { InsertAllTagged(q[1..], m, tag); }
  }

  /** prodcons3: first in, first out, with at most two dates in the queue. */
  lemma Prodcons3IsFifo(es: seq<MqEvent>, s: State)
    requires Play(Producer3(), EMPTY, es) == Some(s)
    ensures s.received + s.queue == s.sent
    ensures |s.queue| <= MAXMSG
  {
    var step := Producer3();
    var inv := (u: State) =>
      MqInv(MAXMSG, u) && AllTagged(u.sent, 0) && AllTagged(u.received, 0) && AllTagged(u.queue, 0);
    forall u, e | inv(u) && step(u, e).Some? ensures inv(step(u, e).value) {
      MqStepInv(MAXMSG, u, e);
      if e.MqSend? { InsertAllTagged(u.queue, e.m, 0); }
    }
    Runs.Invariant(step, inv, EMPTY, es);
    OneTagIsFifo(s, 0);
  }

  /** prodcons2: first in, first out. */
  lemma Prodcons2IsFifo(es: seq<SysvEvent>, s: State)
    requires Play(Producer2(), EMPTY, es) == Some(s)
    ensures s.received + s.queue == s.sent
  {
    var step := Producer2();
    var inv := (u: State) => PerTag(u) && AllTagged(u.sent, 1) && AllTagged(u.received, 1) && AllTagged(u.queue, 1);
    forall u, e | inv(u) && step(u, e).Some? ensures inv(step(u, e).value) {
      SysvStepInv(u, e);
    }
    Runs.Invariant(step, inv, EMPTY, es);
    OneTagIsFifo(s, 1);
  }

  // ----- queue against mailbox -----

  function Dates(ms: seq<Msg>): (ds: seq<string>)
    ensures |ds| == |ms|
    ensures forall i :: 0 <= i < |ms| ==> ds[i] == ms[i].date
  {
    seq(|ms|, i requires 0 <= i < |ms| => ms[i].date)
  }

  /** On the same dates, what the shared zone of prodcons.c prints is a subsequence of what the queue of
      prodcons3.c delivers once it is emptied: the zone may lose dates, the queue none. */
  lemma MailboxPrintsSubsequence(size: nat, mailboxRun: seq<Mailbox.Event>, m: Mailbox.State,
                                 queueRun: seq<MqEvent>, q: State)
    requires Mailbox.Reaches(size, mailboxRun, m)
    requires Play(Producer3(), EMPTY, queueRun) == Some(q)
    requires Dates(q.sent) == m.h.written
    ensures Mailbox.Subsequence(m.h.printed, Dates(q.received) + Dates(q.queue), m.h.order)
    ensures |m.h.printed| <= |q.received| + |q.queue|
  {
    Mailbox.PrintsAreWrites(size, mailboxRun, m);
    Mailbox.WritesCount(size, mailboxRun, m);
    Prodcons3IsFifo(queueRun, q);
    assert Dates(q.received) + Dates(q.queue) == Dates(q.sent) by {
      assert forall i :: 0 <= i < |q.sent| ==> (q.received + q.queue)[i].date == q.sent[i].date;
    }
  }
}
