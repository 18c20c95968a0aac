/** execns.c: the in-place parser of "pid:ns_name1:ns_name2...", and select_ns, which shns3.c has too. */
module Execns {
  import opened Text

  /** The names of ns_list, in its order. */
  const NS_NAMES: seq<string> := ["ipc", "pid", "net", "user", "uts", "cgroup", "mnt"]

  const ALL := "all"

  predicate Known(names: seq<string>, ns: string) { ns == ALL || ns in names }

  ghost predicate Distinct(names: seq<string>) { forall i, j :: 0 <= i < j < |names| ==> names[i] != names[j] }

  /** The flags `now` are the flags `before` and those the names `examined` ask for. */
  ghost predicate SelectedBy(names: seq<string>, before: seq<bool>, now: seq<bool>, examined: seq<string>) {
    && |before| == |now| == |names|
    && forall i :: 0 <= i < |names| ==> (now[i] <==> before[i] || ALL in examined || names[i] in examined)
  }

  /** select_ns on the table `names`: the keyword selects everything, a name its first entry. */
  method SelectNs(names: seq<string>, selected: array<bool>, ns: string) returns (rc: int)
    requires |names| == selected.Length > 0 && Distinct(names)
    modifies selected
    ensures rc == if Known(names, ns) then 0 else -1
    ensures SelectedBy(names, old(selected[..]), selected[..], [ns])
  {
    var found := false;
    var i := 0;
    while i < |names|
      invariant 0 <= i <= |names|
      invariant found <==> ns == ALL && i > 0
      invariant ns != ALL ==> forall j :: 0 <= j < i ==> names[j] != ns
      invariant forall j :: 0 <= j < |names| ==> (selected[j] <==> old(selected[j]) || (j < i && ns == ALL))
    {
      if ns == ALL {
        selected[i] := true;
        found := true;
      } else if names[i] == ns {
        selected[i] := true;
        return 0;
      }
      i := i + 1;
    }
    rc := if found then 0 else -1;
  }

  // ----- the pieces -----

  /** Without its last piece when that is empty. */
  function DropTrailing(ps: seq<string>): seq<string> {
    if |ps| > 0 && ps[|ps| - 1] == "" then ps[..|ps| - 1] else ps
  }

  /** The names of an argument: what follows the first colon, split at colons. */
  function Names(arg: string): seq<string> { DropTrailing(Split(arg, ':')[1..]) }

  function PidText(arg: string): string { Split(arg, ':')[0] }

  predicate IsPid(s: string) { forall i :: 0 <= i < |s| ==> IsDigit(s[i]) }

  /** A list of non-empty names without colon is read back from the argument it makes. */
  lemma NamesRoundTrip(pid: string, names: seq<string>)
    requires ':' !in pid && |names| >= 1
    requires forall i :: 0 <= i < |names| ==> names[i] != "" && ':' !in names[i]
    ensures Names(pid + ":" + Join(names, ':')) == names
    ensures PidText(pid + ":" + Join(names, ':')) == pid
  {
    var arg := pid + [':'] + Join(names, ':');
    assert arg == pid + ":" + Join(names, ':');
    SplitPiece(pid, ':', Join(names, ':'));
    SplitJoin(names, ':');
    assert Split(arg, ':')[1..] == names;
  }

  lemma {:induction false} JoinSnocEmpty(ps: seq<string>)
    requires |ps| >= 1
    ensures Join(ps + [""], ':') == Join(ps, ':') + ":"
    decreases |ps|
  {
    if |ps| == 1 {
      assert (ps + [""])[1..] == [""];
    } else {
      assert (ps + [""])[1..] == ps[1..] + [""];
      JoinSnocEmpty(ps[1..]);
    }
  }

  lemma {:induction false} JoinEnd(ps: seq<string>)
    requires |ps| >= 1 && ':' !in ps[|ps| - 1]
    ensures var t := Join(ps, ':'); t == "" || t[|t| - 1] == ':' <==> ps[|ps| - 1] == ""
    decreases |ps|
  {
    if |ps| > 1 {
      JoinEnd(ps[1..]);
    }
  }

  lemma DropTrailingSnoc(front: seq<string>, last: string)
    ensures DropTrailing(front + [last]) == if last == "" then front else front + [last]
  {
    assert (front + [last])[|front|] == last;
    assert (front + [last])[..|front|] == front;
  }

  lemma JoinDropTrailing(front: seq<string>, last: string)
    ensures var ps := front + [last];
            Join(ps, ':') == if last == "" && front != [] then Join(DropTrailing(ps), ':') + ":"
                             else Join(DropTrailing(ps), ':')
  {
    DropTrailingSnoc(front, last);
    if last == "" && front != [] {
      JoinSnocEmpty(front);
    }
  }

  lemma PidThenNames(arg: string)
    requires ':' in arg
    ensures var ps := Split(arg, ':');
            && |ps| >= 2 && arg == ps[0] + ":" + Join(ps[1..], ':')
            && ':' !in ps[|ps| - 1]
  {
    JoinSplit(arg, ':');
  }

  /** What the parser drops: an argument with a colon is the pid, a colon, and the names joined again,
      with one more colon exactly when there are names and the argument ends in a colon. */
  lemma ArgumentRejoined(arg: string)
    requires ':' in arg
    ensures var more := Names(arg) != [] && arg[|arg| - 1] == ':';
            arg == PidText(arg) + ":" + if more then Join(Names(arg), ':') + ":" else Join(Names(arg), ':')
  {
    PidThenNames(arg);
    var rest := Split(arg, ':')[1..];
    JoinEnd(rest);
    var front, last := rest[..|rest| - 1], rest[|rest| - 1];
    assert rest == front + [last];
    DropTrailingSnoc(front, last);
    JoinDropTrailing(front, last);
  }

  lemma DropTrailingCons(p: string, rest: seq<string>)
    requires |rest| >= 1
    ensures DropTrailing([p] + rest) == [p] + DropTrailing(rest)
  {
    var ps := [p] + rest;
    assert ps[|ps| - 1] == rest[|rest| - 1];
    assert ps[..|ps| - 1] == [p] + rest[..|rest| - 1];
  }

  /** Cutting `t` at its first colon, at `k`. */
  lemma CutFirst(t: string, k: nat)
    requires k < |t| && t[k] == ':' && ':' !in t[..k]
    ensures DropTrailing(Split(t, ':')) == [t[..k]] + DropTrailing(Split(t[k + 1..], ':'))
  {
    SplitAt(t, k, ':');
    DropTrailingCons(t[..k], Split(t[k + 1..], ':'));
  }

  // ----- the parser -----

  /** The buffer holds the text `t`, NUL-terminated, from index `from` to its end. */
  ghost predicate Holds(p: seq<char>, from: nat, t: string) {
    && from + |t| + 1 == |p|
    && (forall j :: from <= j < from + |t| ==> p[j] == t[j - from] && p[j] != NUL)
    && p[from + |t|] == NUL
  }

  /** strchr: the index of the first colon before the NUL, or -1. */
  method StrChr(p: array<char>, from: nat, ghost t: string) returns (k: int)
    requires Holds(p[..], from, t)
    ensures k == -1 ==> ':' !in t
    ensures k != -1 ==> from <= k < from + |t| && t[k - from] == ':' && ':' !in t[..k - from]
  {
    k := from;
    while p[k] != NUL
      invariant from <= k <= from + |t|
      invariant forall i :: 0 <= i < k - from ==> t[i] != ':'
      invariant k < from + |t| ==> p[k] == t[k - from] != NUL
      decreases p.Length - k
    {
      if p[k] == ':' {
        return k;
      }
      k := k + 1;
    }
    return -1;
  }

  /** The C string at `from`, when the first NUL behind it is at `to`. */
  lemma CStrAt(p: seq<char>, from: nat, to: nat, w: string)
    requires from <= to < |p| && p[to] == NUL && |w| == to - from
    requires forall j :: from <= j < to ==> p[j] == w[j - from] && p[j] != NUL
    ensures CStr(p[from..]) == w
  {
    var s := p[from..];
    forall i | 0 <= i < |w| ensures s[i] == w[i] != NUL {
      assert s[i] == p[from + i];
    }
    assert s[|w|] == NUL;
    assert StrLen(s) == |w|;
  }

  /** Writing a NUL over the colon at `to`. */
  lemma CutInPlace(p: seq<char>, from: nat, to: nat, t: string)
    requires Holds(p, from, t) && from <= to < from + |t|
    ensures CStr(p[to := NUL][from..]) == t[..to - from]
    ensures Holds(p[to := NUL], to + 1, t[to - from + 1..])
  {
    var q, name, rest := p[to := NUL], t[..to - from], t[to - from + 1..];
    forall j | from <= j < to ensures q[j] == name[j - from] && q[j] != NUL {
      assert q[j] == p[j] && p[j] == t[j - from];
      assert name[j - from] == t[j - from];
    }
    CStrAt(q, from, to, name);
    forall j | to + 1 <= j < to + 1 + |rest| ensures q[j] == rest[j - (to + 1)] && q[j] != NUL {
      assert q[j] == p[j] && p[j] == t[j - from];
      assert rest[j - (to + 1)] == t[j - from];
    }
    assert q[to + 1 + |rest|] == NUL && to + 1 + |rest| + 1 == |q|;
  }

  /** One round of the loop when there is a colon at `p2`: the name in front of it is cut off in place. */
  method CutName(p: array<char>, p1: nat, p2: nat, ghost t: string) returns (name: string)
    requires Holds(p[..], p1, t)
    requires p1 <= p2 < p1 + |t| && t[p2 - p1] == ':' && ':' !in t[..p2 - p1]
    modifies p
    ensures name == t[..p2 - p1]
    ensures Holds(p[..], p2 + 1, t[p2 - p1 + 1..])
    ensures DropTrailing(Split(t, ':')) == [name] + DropTrailing(Split(t[p2 - p1 + 1..], ':'))
  {
    CutFirst(t, p2 - p1);
    CutInPlace(p[..], p1, p2, t);
    ghost var before := p[..];
    p[p2] := NUL;
    assert p[..] == before[p2 := NUL];
    assert p[p1..] == p[..][p1..];
    name := CStr(p[p1..]);
  }

  lemma SelectedOneMore(names: seq<string>, before: seq<bool>, mid: seq<bool>, now: seq<bool>,
                        examined: seq<string>, ns: string)
    requires SelectedBy(names, before, mid, examined)
    requires SelectedBy(names, mid, now, [ns])
    ensures SelectedBy(names, before, now, examined + [ns])
  {
    assert forall x :: x in examined + [ns] <==> x in examined || x == ns;
  }

  /** The names still to be read: none once the last name has been taken. */
  ghost function Remaining(more: bool, t: string): seq<string> {
    if more then DropTrailing(Split(t, ':')) else []
  }

  /** One round of the loop up to the call of select_ns; `more` when it cut a name off at a colon. */
  method NextName(p: array<char>, p1: nat, ghost t: string) returns (name: string, p2: nat, more: bool, ghost u: string)
    requires Holds(p[..], p1, t) && t != ""
    modifies p
    ensures more ==> Holds(p[..], p2, u) && |u| < |t|
    ensures Remaining(true, t) == [name] + Remaining(more, u)
  {
    var k := StrChr(p, p1, t);
    if k != -1 {
      u := t[k - p1 + 1..];
      name := CutName(p, p1, k, t);
      p2, more := k + 1, true;
    } else {
      SplitNone(t, ':');
      CStrAt(p[..], p1, p1 + |t|, t);
      assert p[p1..] == p[..][p1..];
      name := CStr(p[p1..]);
      p2, more, u := p1, false, "";
    }
  }

  lemma OneMore(examined: seq<string>, name: string, rest: seq<string>)
    ensures examined + [name] + rest == examined + ([name] + rest)
    ensures examined + [name] <= examined + ([name] + rest)
    ensures name in examined + ([name] + rest)
  {
    assert (examined + ([name] + rest))[|examined|] == name;
  }

  /** One round of the loop with its call of select_ns, after the names `examined`. */
  method ExamineNext(p: array<char>, p1: nat, ghost t: string, names: seq<string>, selected: array<bool>,
                     ghost before: seq<bool>, ghost examined: seq<string>)
    returns (sel: int, p2: nat, more: bool, ghost u: string, ghost name: string)
    requires Holds(p[..], p1, t) && t != ""
    requires |names| == selected.Length > 0 && Distinct(names)
    requires SelectedBy(names, before, selected[..], examined)
    modifies p, selected
    ensures more ==> Holds(p[..], p2, u) && |u| < |t|
    ensures Remaining(true, t) == [name] + Remaining(more, u)
    ensures sel == if Known(names, name) then 0 else -1
    ensures SelectedBy(names, before, selected[..], examined + [name])
  {
    var text;
    text, p2, more, u := NextName(p, p1, t);
    name := text;
    ghost var mid := selected[..];
    sel := SelectNs(names, selected, text);
    SelectedOneMore(names, before, mid, selected[..], examined, name);
  }

  ghost predicate AllKnown(names: seq<string>, xs: seq<string>) { forall x :: x in xs ==> Known(names, x) }

  /** Known names, then one that is not. */
  ghost predicate UpToUnknown(names: seq<string>, xs: seq<string>) {
    && |xs| > 0
    && AllKnown(names, xs[..|xs| - 1])
    && !Known(names, xs[|xs| - 1])
  }

  /** The loop over the names, on the copy `p` of the argument from index `start`, which holds `t`.
      `examined` are the names given to select_ns. */
  method ParseNames(p: array<char>, start: nat, ghost t: string, names: seq<string>, selected: array<bool>)
    returns (rc: int, n: nat, ghost examined: seq<string>)
    requires Holds(p[..], start, t)
    requires |names| == selected.Length > 0 && Distinct(names)
    modifies p, selected
    ensures rc == if AllKnown(names, DropTrailing(Split(t, ':'))) then 0 else 1
    ensures rc == 0 ==> examined == DropTrailing(Split(t, ':'))
    ensures examined <= DropTrailing(Split(t, ':')) && n == |examined|
    ensures rc == 1 ==> UpToUnknown(names, examined)
    ensures SelectedBy(names, old(selected[..]), selected[..], examined)
  {
    var p1, more := start, true;
    n, examined := 0, [];
    ghost var u, wanted, before := t, Remaining(true, t), selected[..];
    while more && p[p1] != NUL
      invariant more ==> Holds(p[..], p1, u)
      invariant examined + Remaining(more, u) == wanted
      invariant n == |examined| && AllKnown(names, examined)
      invariant SelectedBy(names, before, selected[..], examined)
      decreases more, |u|
    {
      var sel;
      ghost var name;
      sel, p1, more, u, name := ExamineNext(p, p1, u, names, selected, before, examined);
      OneMore(examined, name, Remaining(more, u));
      n := n + 1;
      ghost var earlier := examined;
      examined := examined + [name];
      if sel != 0 {
        assert examined[..|examined| - 1] == earlier;
        return 1, n, examined;
      }
    }
    assert more ==> u == "";
    rc := 0;
  }

  const INT_MAX: nat := 0x7FFF_FFFF

  /** atoi on digits: the number they denote, if an int can hold it.  For a greater one the C standard
      leaves the result open; `beyond` is what the library gives then. */
  function Atoi(s: string, beyond: int): int
    requires IsPid(s)
  {
    if Parse(s) <= INT_MAX then Parse(s) else beyond
  }

  lemma {:induction false} ParseBelow(s: string)
    requires IsPid(s)
    ensures Parse(s) < Pow10(|s|)
    decreases |s|
  {
    if |s| != 0 {
      assert IsDigit(s[|s| - 1]);
      ParseBelow(s[..|s| - 1]);
    }
  }

  /** The number is the one the digits denote for every text of at most 9 of them, whatever the library
      does beyond the ints, and for the decimal form of every int. */
  lemma AtoiExact(s: string, n: nat, beyond: int)
    ensures IsPid(s) && |s| <= 9 ==> Atoi(s, beyond) == Parse(s)
    ensures n <= INT_MAX ==> Atoi(Decimal(n), beyond) == n
  {
    if IsPid(s) && |s| <= 9 {
      ParseBelow(s);
      PowMonotone(|s|, 9);
      assert Pow10(9) == 1_000_000_000 by { assert Pow10(4) == 10_000; }
    }
    ParseDecimal(n);
  }

  lemma {:induction false} PowMonotone(a: nat, b: nat)
    requires a <= b
    ensures Pow10(a) <= Pow10(b)
    decreases b
  {
    if a < b { PowMonotone(a, b - 1); }
  }

  /** Ten digits may be too many: this one differs from what `beyond` may be. */
  lemma TenDigitsMayFail(beyond: int)
    requires beyond != 2_147_483_648
    ensures |Decimal(2_147_483_648)| == 10
    ensures Atoi(Decimal(2_147_483_648), beyond) != Parse(Decimal(2_147_483_648))
  {
    assert Pow10(9) == 1_000_000_000 by { assert Pow10(4) == 10_000; }
    assert Pow10(10) == 10_000_000_000;
    DecimalLength(2_147_483_648, 9);
    DecimalLength(2_147_483_648, 10);
    ParseDecimal(2_147_483_648);
  }

  /** main up to the namespaces: strdup, the search for the first colon, the names, and the pid; 1 when
      it ends with an error.  `tpid` is the pid and `n` the count of namespaces. */
  method ParseArgument(arg: string, names: seq<string>, selected: array<bool>, beyond: int)
    returns (rc: int, n: nat, tpid: int)
    requires NUL !in arg
    requires |names| == selected.Length > 0 && Distinct(names)
    modifies selected
    ensures rc == 0 <==> AllKnown(names, Names(arg)) && IsPid(PidText(arg))
    ensures rc == 0 || rc == 1
    ensures rc == 0 ==> tpid == Atoi(PidText(arg), beyond)
    ensures rc == 0 ==> n == if Names(arg) == [] then |names| else |Names(arg)|
    ensures rc == 0 ==>
              SelectedBy(names, old(selected[..]), selected[..], if Names(arg) == [] then [ALL] else Names(arg))
  {
    var p := new char[|arg| + 1](i => if 0 <= i < |arg| then arg[i] else NUL);
    assert p[0..|arg|] == arg;
    n, tpid := 0, 0;
    var p1 := StrChr(p, 0, arg);
    var pidText;
    if p1 == -1 {
      SplitNone(arg, ':');
      var all := SelectNs(names, selected, ALL);
      n := |names|;
      pidText := arg;
    } else {
      ghost var t := arg[p1 + 1..];
      SplitAtFirst(arg, p1);
      pidText := CutName(p, 0, p1, arg);
      ghost var examined;
      var sel;
      sel, n, examined := ParseNames(p, p1 + 1, t, names, selected);
      if sel != 0 {
        return 1, n, 0;
      }
      if n == 0 {
        var all := SelectNs(names, selected, ALL);
        n := |names|;
      }
    }
    if !IsPid(pidText) {
      return 1, n, 0;
    }
    rc, tpid := 0, Atoi(pidText, beyond);
  }

  lemma NsNamesDistinct()
    ensures Distinct(NS_NAMES) && ALL !in NS_NAMES
  {
  }

  /** main on its own table, in which nothing is selected at first: a namespace is selected exactly when
      its name or the keyword occurs, or no name at all. */
  method ParseProgramArgument(arg: string, beyond: int)
    returns (rc: int, n: nat, tpid: int, selected: array<bool>)
    requires NUL !in arg
    ensures fresh(selected) && selected.Length == |NS_NAMES|
    ensures rc == 0 <==> AllKnown(NS_NAMES, Names(arg)) && IsPid(PidText(arg))
    ensures rc == 0 ==>
              && tpid == Atoi(PidText(arg), beyond)
              && n == (if Names(arg) == [] then |NS_NAMES| else |Names(arg)|)
              && forall i :: 0 <= i < |NS_NAMES| ==>
                   (selected[i] <==> Names(arg) == [] || ALL in Names(arg) || NS_NAMES[i] in Names(arg))
  {
    NsNamesDistinct();
    selected := new bool[|NS_NAMES|](_ => false);
    rc, n, tpid := ParseArgument(arg, NS_NAMES, selected, beyond);
  }

  lemma SplitAtFirst(t: string, k: nat)
    requires k < |t| && t[k] == ':' && ':' !in t[..k]
    ensures PidText(t) == t[..k] && Names(t) == DropTrailing(Split(t[k + 1..], ':'))
  {
    SplitAt(t, k, ':');
  }

  // ----- entering the namespaces -----

  /** For one namespace: what cmp_ns returns (1 the same, 0 different, -1 an error), and whether open and
      setns succeed. */
  datatype NsCalls = NsCalls(cmp: int, openOk: bool, setnsOk: bool)

  /** The namespaces still to enter from index `i` on, in the order of the table: selected, and different
      from the caller's.  An error of cmp_ns counts as the same. */
  function Wanted(selected: seq<bool>, calls: seq<NsCalls>, i: nat): (w: seq<nat>)
    requires i <= |selected| == |calls|
    ensures forall k :: 0 <= k < |w| ==> i <= w[k] < |selected|
    decreases |selected| - i
  {
    if i == |selected| then []
    else
      var rest := Wanted(selected, calls, i + 1);
      if selected[i] && calls[i].cmp == 0 then [i] + rest else rest
  }

  lemma {:induction false} WantedMeaning(selected: seq<bool>, calls: seq<NsCalls>, i: nat)
    requires i <= |selected| == |calls|
    ensures var w := Wanted(selected, calls, i);
            && (forall k: nat :: k in w <==> i <= k < |selected| && selected[k] && calls[k].cmp == 0)
            && (forall j, k :: 0 <= j < k < |w| ==> w[j] < w[k])
    decreases |selected| - i
  {
    if i != |selected| { WantedMeaning(selected, calls, i + 1); }
  }

  /** A program that goes on has entered every selected namespace of the target that is not its own if
      and only if no comparison of a selected one failed. */
  lemma AllEnteredIff(selected: seq<bool>, calls: seq<NsCalls>)
    requires |selected| == |calls| && forall k :: 0 <= k < |calls| ==> -1 <= calls[k].cmp <= 1
    ensures (forall k: nat :: k < |selected| && selected[k] ==>
               calls[k].cmp == 1 || k in Wanted(selected, calls, 0)) <==>
            (forall k: nat :: k < |selected| && selected[k] ==> calls[k].cmp != -1)
  {
    WantedMeaning(selected, calls, 0);
  }

  /** For a target that does not exist every comparison fails: nothing is to be entered, and
      EnterNamespaces returns 0. */
  lemma {:induction false} MissingTargetIsIgnored(selected: seq<bool>, calls: seq<NsCalls>, i: nat)
    requires i <= |selected| == |calls| && forall k :: 0 <= k < |calls| ==> calls[k].cmp == -1
    ensures Wanted(selected, calls, i) == []
    decreases |selected| - i
  {
    if i != |selected| { MissingTargetIsIgnored(selected, calls, i + 1); }
  }

  lemma Entered(entered: seq<nat>, i: nat, rest: seq<nat>)
    ensures entered + [i] + rest == entered + ([i] + rest)
    ensures entered <= entered + ([i] + rest)
    ensures (entered + ([i] + rest))[|entered|] == i
  {
  }

  predicate Succeeds(calls: seq<NsCalls>, i: nat) { i < |calls| && calls[i].openOk && calls[i].setnsOk }

  /** The entry loop of main; 1 when it gives up.  `entered` are the namespaces setns has moved it to. */
  method EnterNamespaces(selected: seq<bool>, calls: seq<NsCalls>) returns (rc: int, entered: seq<nat>)
    requires |selected| == |calls|
    ensures rc == 0 || rc == 1
    ensures entered <= Wanted(selected, calls, 0)
    ensures rc == 0 ==> entered == Wanted(selected, calls, 0)
    ensures rc == 1 ==> |entered| < |Wanted(selected, calls, 0)| &&
                        !Succeeds(calls, Wanted(selected, calls, 0)[|entered|])
    ensures forall k :: 0 <= k < |entered| ==> Succeeds(calls, entered[k])
  {
    entered := [];
    var i := 0;
    ghost var all := Wanted(selected, calls, 0);
    while i < |selected|
      invariant 0 <= i <= |selected|
      invariant entered + Wanted(selected, calls, i) == all
      invariant forall k :: 0 <= k < |entered| ==> Succeeds(calls, entered[k])
    {
      if selected[i] && calls[i].cmp == 0 {
        Entered(entered, i, Wanted(selected, calls, i + 1));
        if !calls[i].openOk || !calls[i].setnsOk {
          return 1, entered;
        }
        entered := entered + [i];
      }
      i := i + 1;
    }
    rc := 0;
  }
}
