/** getnsids.c: getnsids and its helpers as the goto-structured code they are, with the descriptors and
    the child of the calling process.

    What each call returns is a parameter.  A new descriptor gets the lowest free number (POSIX.1-2017,
    System Interfaces, section 2.14). */
module GetNsIds {
  import Text

  // ----- the calling process -----

  /** The namespaces of the target that setns moves the caller, or its later children, into. */
  datatype NsKind = PidKind | UserKind

  class Process {
    var table: set<int>      // open descriptors
    var badClose: bool       // close was given a descriptor that is not open
    var children: set<int>   // forked, not waited for yet
    var waits: multiset<int> // the pids waitpid has been called with, however it returned
    var entered: set<NsKind> // where setns has taken it
    var childIn: set<NsKind> // where the last forked child was born

    constructor (open: set<int>)
      ensures table == open && !badClose && children == {} && waits == multiset{}
      ensures entered == {} && childIn == {}
    {
      table, badClose, children, waits, entered, childIn := open, false, {}, multiset{}, {}, {};
    }

    /** fork, in the father: the child is born in the namespaces its father has entered. */
    method Fork(pid: int)
      modifies this`children, this`childIn
      ensures children == old(children) + {pid} && childIn == entered
    {
      children := children + {pid};
      childIn := entered;
    }

    method Setns(kind: NsKind)
      modifies this`entered
      ensures entered == old(entered) + {kind}
    {
      entered := entered + {kind};
    }

    method Open() returns (fd: int)
      modifies this`table
      ensures fd >= 0 && fd !in old(table) && forall m :: 0 <= m < fd ==> m in old(table)
      ensures table == old(table) + {fd}
    {
      fd := 0;
      ghost var below: set<int> := {};
      while fd in table
        invariant fd >= 0 && table == old(table) && below <= table
        invariant forall m :: 0 <= m < fd ==> m in table
        invariant forall m :: m in below <==> 0 <= m < fd
        decreases |table - below|
      {
        assert table - (below + {fd}) == table - below - {fd};
        below := below + {fd};
        fd := fd + 1;
      }
      table := table + {fd};
    }

    method Close(fd: int)
      modifies this`table, this`badClose
      ensures table == old(table) - {fd}
      ensures badClose <==> old(badClose) || fd !in old(table)
    {
      badClose := badClose || fd !in table;
      table := table - {fd};
    }

    /** waitpid on one pid; `ok` when it returns that pid. */
    method Wait(pid: int, ok: bool)
      modifies this`children, this`waits
      ensures waits == old(waits) + multiset{pid}
      ensures children == if ok then old(children) - {pid} else old(children)
    {
      waits := waits + multiset{pid};
      if ok {
        children := children - {pid};
      }
    }
  }

  // ----- open_socket -----

  datatype SocketCalls = SocketCalls(
    socketOk: bool, optionOk: bool, pathFits: bool, bindOk: bool, listenOk: bool, connectOk: bool)

  predicate SocketSucceeds(c: SocketCalls, srv: bool) {
    c.socketOk && c.pathFits && if srv then c.optionOk && c.bindOk && c.listenOk else c.connectOk
  }

  method OpenSocket(p: Process, srv: bool, c: SocketCalls) returns (rc: int)
    modifies p`table, p`badClose
    ensures rc == -1 || rc >= 0
    ensures rc >= 0 <==> SocketSucceeds(c, srv)
    ensures rc == -1 ==> p.table == old(p.table)
    ensures rc >= 0 ==> rc !in old(p.table) && p.table == old(p.table) + {rc}
    ensures forall m :: 0 <= m < rc ==> m in old(p.table)
    ensures p.badClose == old(p.badClose)
  {
    var sd := -1;
    label err: {
      if c.socketOk {
        sd := p.Open();
      }
      if sd < 0 {
        rc := -1;
        break err;
      }
      if srv {
        if !c.optionOk {
          rc := -1;
          break err;
        }
        if !c.pathFits {
          rc := -1;
          break err;
        }
        if !c.bindOk {
          rc := -1;
          break err;
        }
        if !c.listenOk {
          rc := -1;
          break err;
        }
      } else {
        if !c.pathFits {
          rc := -1;
          break err;
        }
        if !c.connectOk {
          rc := -1;
          break err;
        }
      }
      rc := sd;
    }
    if rc < 0 {
      if sd >= 0 {
        p.Close(sd);
      }
    }
  }

  // ----- child_getids -----

  datatype ChildCalls = ChildCalls(selectOk: bool, acceptOk: bool, optionOk: bool, recvOk: bool, writeWhole: bool)

  /** The child's copy of the process; it closes the server socket it inherited. */
  method ChildGetIds(p: Process, srvSd: int, c: ChildCalls) returns (rc: int)
    requires srvSd >= 0 && srvSd in p.table
    modifies p`table, p`badClose
    ensures rc == if c.selectOk && c.acceptOk && c.optionOk && c.recvOk && c.writeWhole then 0 else 1
    ensures p.table == old(p.table) - {srvSd}
    ensures p.badClose == old(p.badClose)
  {
    var sd1 := -1;
    label err: {
      if !c.selectOk {
        rc := 1;
        break err;
      }
      if c.acceptOk {
        sd1 := p.Open();
      }
      if sd1 < 0 {
        rc := 1;
        break err;
      }
      if !c.optionOk {
        rc := 1;
        break err;
      }
      if !c.recvOk {
        rc := 1;
        break err;
      }
      if !c.writeWhole {
        rc := 1;
        break err;
      }
      rc := 0;
    }
    if sd1 >= 0 {
      p.Close(sd1);
    }
    if srvSd >= 0 {
      p.Close(srvSd);
    }
  }

  // ----- getnsids -----

  datatype Ids = Ids(pid: int, uid: int, gid: int)

  /** id_mask: which ids are to be translated. */
  datatype Mask = Mask(pid: bool, uid: bool, gid: bool)

  /** The ids the father sends: those given where the mask asks for them, else its own. */
  function Sent(mask: Mask, own: Ids, given: Ids): Ids {
    Ids(if mask.pid then given.pid else own.pid,
        if mask.uid then given.uid else own.uid,
        if mask.gid then given.gid else own.gid)
  }

  /** read of a struct ucred: an error, nothing, or the whole structure. */
  datatype ReadResult = ReadError | Nothing | Whole(ids: Ids)

  /** `asked` when the mask asks for ids of this kind; `cmp` is what cmp_ns returns, 1 for the same
      namespace, 0 for another one, -1 for an error. */
  datatype NsCalls = NsCalls(asked: bool, cmp: int, pathFits: bool, openOk: bool, setnsOk: bool)

  predicate Needed(c: NsCalls) { c.asked && c.cmp == 0 }

  predicate Entered(c: NsCalls) { !Needed(c) || (c.pathFits && c.openOk && c.setnsOk) }

  /** `child` is what fork returns to the father, -1 when it fails; `waited` what waitpid returns. */
  datatype Calls = Calls(
    nameFits: bool, server: SocketCalls, pidNs: NsCalls, userNs: NsCalls, child: int,
    client: SocketCalls, sendOk: bool, read: ReadResult, waited: int, status: int, waitAtEndOk: bool)

  /** The value getnsids returns. */
  function Verdict(c: Calls): int {
    if !c.nameFits then 1
    else if !SocketSucceeds(c.server, true) then -1
    else if !Entered(c.pidNs) || !Entered(c.userNs) then 1
    else if c.child == -1 || !SocketSucceeds(c.client, false) || !c.sendOk || c.read.ReadError? then -1
    else if c.waited != c.child || c.status != 0 then -1
    else 0
  }

  /** The father gets to the wait in the middle of the function, having stored the ids. */
  predicate Stores(c: Calls) {
    && c.nameFits && SocketSucceeds(c.server, true) && Entered(c.pidNs) && Entered(c.userNs)
    && c.child != -1 && SocketSucceeds(c.client, false) && c.sendOk && !c.read.ReadError?
  }

  predicate Forks(c: Calls) {
    c.nameFits && SocketSucceeds(c.server, true) && Entered(c.pidNs) && Entered(c.userNs) && c.child != -1
  }

  /** The wait for the child fails. */
  predicate WaitFails(c: Calls) {
    Forks(c) && if Stores(c) then c.waited != c.child else !c.waitAtEndOk
  }

  /** One of the two blocks that enter a namespace of the target.  `fd` is the variable of that name
      when the block is left; on failure main goes to its label err. */
  method EnterNamespace(p: Process, c: NsCalls, kind: NsKind) returns (ok: bool, fd: int)
    modifies p`table, p`badClose, p`entered
    ensures p.entered == old(p.entered) + (if Needed(c) && Entered(c) then {kind} else {})
    ensures ok <==> Entered(c)
    ensures ok ==> fd == -1
    ensures fd == -1 ==> p.table == old(p.table)
    ensures fd != -1 ==> fd !in old(p.table) && p.table == old(p.table) + {fd} && fd >= 0
    ensures fd != -1 ==> forall m :: 0 <= m < fd ==> m in old(p.table)
    ensures p.badClose == old(p.badClose)
  {
    fd := -1;
    if c.asked && c.cmp == 0 {
      if !c.pathFits {
        return false, fd;
      }
      if c.openOk {
        fd := p.Open();
      }
      if fd < 0 {
        return false, fd;
      }
      if !c.setnsOk {
        return false, fd;
      }
      p.Setns(kind);
      p.Close(fd);
      fd := -1;
    }
    ok := true;
  }

  /** Both blocks, one after the other. */
  method EnterNamespaces(p: Process, pidNs: NsCalls, userNs: NsCalls) returns (ok: bool, fd: int)
    modifies p`table, p`badClose, p`entered
    ensures ok ==> p.entered == old(p.entered) + (if Needed(pidNs) then {PidKind} else {})
                                + (if Needed(userNs) then {UserKind} else {})
    ensures ok <==> Entered(pidNs) && Entered(userNs)
    ensures ok ==> fd == -1
    ensures fd == -1 ==> p.table == old(p.table)
    ensures fd != -1 ==> fd !in old(p.table) && p.table == old(p.table) + {fd} && fd >= 0
    ensures forall m :: 0 <= m < fd ==> m in old(p.table)
    ensures p.badClose == old(p.badClose)
  {
    ok, fd := EnterNamespace(p, pidNs, PidKind);
    if ok {
      ok, fd := EnterNamespace(p, userNs, UserKind);
    }
  }

  /** The father after fork, up to the label err: `sd1` and `child` are the variables of these names when
      it gets there. */
  method FatherExchange(p: Process, c: Calls, mask: Mask, own: Ids, given: Ids)
    returns (rc: int, sd1: int, child: int, out: Ids)
    requires c.child in p.children
    modifies p`table, p`badClose, p`children, p`waits
    ensures rc == if !SocketSucceeds(c.client, false) || !c.sendOk || c.read.ReadError? then -1
                  else if c.waited != c.child || c.status != 0 then -1 else 0
    ensures sd1 == -1 ==> p.table == old(p.table)
    ensures sd1 != -1 ==> sd1 >= 0 && sd1 !in old(p.table) && p.table == old(p.table) + {sd1}
    ensures p.badClose == old(p.badClose)
    ensures var stores := SocketSucceeds(c.client, false) && c.sendOk && !c.read.ReadError?;
            && child == (if stores then -1 else c.child)
            && p.waits == old(p.waits) + (if stores then multiset{c.child} else multiset{})
            && p.children == old(p.children) - (if stores && c.waited == c.child then {c.child} else {})
            && out == (if !stores then given else if c.read.Whole? then c.read.ids else Sent(mask, own, given))
  {
    sd1, child, out := -1, c.child, given;
    label err: {
      sd1 := OpenSocket(p, false, c.client);
      if sd1 < 0 {
        rc := -1;
        break err;
      }
      var ucreds := Ids(if mask.pid then given.pid else own.pid,
                        if mask.uid then given.uid else own.uid,
                        if mask.gid then given.gid else own.gid);
      if !c.sendOk {
        rc := -1;
        break err;
      }
      if c.read.ReadError? {
        rc := -1;
        break err;
      }
      if c.read.Whole? {
        ucreds := c.read.ids;
      }
      p.Close(sd1);
      sd1 := -1;
      out := ucreds;
      p.Wait(child, c.waited == child);
      if c.waited != child {
        child := -1;
        rc := -1;
        break err;
      }
      child := -1;
      if c.status != 0 {
        rc := -1;
        break err;
      }
      rc := 0;
    }
  }

  /** What is still open, in the order of the closes behind the label err.  Only a positive fd counts. */
  function Leftover(fd: int, sd1: int, sd: int): set<int> {
    (if fd > 0 then {fd} else {}) + (if sd1 >= 0 then {sd1} else {}) + (if sd >= 0 then {sd} else {})
  }

  /** The code behind the label err. */
  method CleanUp(p: Process, fd: int, sd1: int, sd: int, child: int, waitOk: bool)
    requires Leftover(fd, sd1, sd) <= p.table
    requires fd > 0 ==> fd != sd1 && fd != sd
    requires sd1 >= 0 ==> sd1 != sd
    modifies p`table, p`badClose, p`waits, p`children
    ensures p.table == old(p.table) - Leftover(fd, sd1, sd) && p.badClose == old(p.badClose)
    ensures p.waits == old(p.waits) + (if child >= 0 then multiset{child} else multiset{})
    ensures p.children == old(p.children) - (if child >= 0 && waitOk then {child} else {})
  {
    if fd > 0 {
      p.Close(fd);
    }
    if sd1 >= 0 {
      p.Close(sd1);
    }
    if sd >= 0 {
      p.Close(sd);
    }
    if child >= 0 {
      p.Wait(child, waitOk);
    }
  }

  /** The father from fork on, with the server socket `sd` open.  `sd'`, `sd1` and `child` are the
      variables sd, sd1 and child at the label err. */
  method ForkAndExchange(p: Process, c: Calls, sd: int, mask: Mask, own: Ids, given: Ids)
    returns (rc: int, sd': int, sd1: int, child: int, out: Ids)
    requires c.child == -1 || (c.child > 0 && c.child !in p.children)
    requires sd >= 0 && sd in p.table
    modifies p
    ensures var stores := SocketSucceeds(c.client, false) && c.sendOk && !c.read.ReadError?;
            && rc == (if c.child == -1 || !stores || c.waited != c.child || c.status != 0 then -1 else 0)
            && out == (if c.child == -1 || !stores then given
                       else if c.read.Whole? then c.read.ids else Sent(mask, own, given))
            && child == (if c.child == -1 || stores then -1 else c.child)
            && p.waits == old(p.waits) + (if c.child != -1 && stores then multiset{c.child} else multiset{})
            && p.children == old(p.children) +
                             (if c.child == -1 || (stores && c.waited == c.child) then {} else {c.child})
    ensures p.entered == old(p.entered) && (c.child != -1 ==> p.childIn == p.entered)
    ensures sd' == (if c.child == -1 then sd else -1) && (sd' == -1 || sd1 == -1)
    ensures sd1 == -1 || (sd1 >= 0 && sd1 !in old(p.table) - {sd})
    ensures p.table == old(p.table) - {sd} + Leftover(-1, sd1, sd') && p.badClose == old(p.badClose)
  {
    if c.child == -1 {
      return -1, sd, -1, -1, given;
    }
    p.Fork(c.child);
    p.Close(sd);
    sd' := -1;
    rc, sd1, child, out := FatherExchange(p, c, mask, own, given);
  }

  /** getnsids up to the label err, with its variables there; `open` is false when it returns before. */
  method UpToErr(p: Process, c: Calls, mask: Mask, own: Ids, given: Ids)
    returns (open: bool, rc: int, fd: int, sd: int, sd1: int, child: int, out: Ids)
    requires c.child == -1 || (c.child > 0 && c.child !in p.children)
    requires forall fd :: fd in p.table ==> fd >= 0
    modifies p
    ensures rc == Verdict(c)
    ensures out == if !Stores(c) then given else if c.read.Whole? then c.read.ids else Sent(mask, own, given)
    ensures open <==> !c.nameFits || SocketSucceeds(c.server, true)
    ensures child == if Forks(c) && !Stores(c) then c.child else -1
    ensures p.waits == old(p.waits) + (if Stores(c) then multiset{c.child} else multiset{})
    ensures p.children == old(p.children) + (if Forks(c) && !(Stores(c) && c.waited == c.child) then {c.child} else {})
    ensures Forks(c) ==> p.childIn == old(p.entered) + (if Needed(c.pidNs) then {PidKind} else {})
                                      + (if Needed(c.userNs) then {UserKind} else {})
    ensures fd == -1 || fd > 0
    ensures ((fd == -1 || fd != sd) && sd1 == -1) || (fd == -1 && sd == -1)
    ensures Leftover(fd, sd1, sd) !! old(p.table)
    ensures p.table == old(p.table) + Leftover(fd, sd1, sd) && p.badClose == old(p.badClose)
    ensures !open ==> Leftover(fd, sd1, sd) == {}
  {
    open, fd, sd, sd1, child, out := true, -1, -1, -1, -1, given;
    if !c.nameFits {
      rc := 1;
      return;
    }
    sd := OpenSocket(p, true, c.server);
    if sd < 0 {
      open, rc := false, -1;
      return;
    }
    var ok;
    ok, fd := EnterNamespaces(p, c.pidNs, c.userNs);
    if !ok {
      rc := 1;
      return;
    }
    rc, sd, sd1, child, out := ForkAndExchange(p, c, sd, mask, own, given);
  }

  /** getnsids.  `given` are the values behind the pointers on entry and `out` those on return; `own` the
      ids of the caller. */
  method GetNsIds(p: Process, c: Calls, mask: Mask, own: Ids, given: Ids) returns (rc: int, out: Ids)
    requires c.pidNs.asked == mask.pid && c.userNs.asked == (mask.uid || mask.gid)
    requires c.child == -1 || (c.child > 0 && c.child !in p.children)
    requires forall fd :: fd in p.table ==> fd >= 0
    modifies p
    ensures rc == Verdict(c)
    ensures p.table == old(p.table) && p.badClose == old(p.badClose)
    ensures p.waits == old(p.waits) + (if Forks(c) then multiset{c.child} else multiset{})
    ensures p.children == old(p.children) + (if WaitFails(c) then {c.child} else {})
    ensures Forks(c) ==> p.childIn == old(p.entered) + (if Needed(c.pidNs) then {PidKind} else {})
                                      + (if Needed(c.userNs) then {UserKind} else {})
    ensures !Stores(c) ==> out == given
    ensures Stores(c) && c.read.Whole? ==> out == c.read.ids
    ensures Stores(c) && c.read.Nothing? ==>
              && out.pid == (if mask.pid then given.pid else own.pid)
              && out.uid == (if mask.uid then given.uid else own.uid)
              && out.gid == (if mask.gid then given.gid else own.gid)
  {
    var open, fd, sd, sd1, child;
    open, rc, fd, sd, sd1, child, out := UpToErr(p, c, mask, own, given);
    if open {
      CleanUp(p, fd, sd1, sd, child, c.waitAtEndOk);
    }
  }

  // ----- main -----

  /** What main returns after the call: it takes everything but -1 for a success. */
  function MainStatus(rc: int): int { if rc != -1 then 0 else 1 }

  /** Both snprintf of a path fit their 256 characters, for every value of a pid_t; what `nameFits` and
      `pathFits` stand for is therefore never false. */
  lemma PathsFit(pid: int)
    requires -0x8000_0000 <= pid < 0x8000_0000
    ensures |"/tmp/getnsids." + Text.DecimalInt(pid)| < 256
    ensures |"/proc/" + Text.DecimalInt(pid) + "/ns/pid"| < 256
    ensures |"/proc/" + Text.DecimalInt(pid) + "/ns/user"| < 256
  {
    assert Text.Pow10(10) == 10_000_000_000 by {
      assert Text.Pow10(4) == 10_000;
      assert Text.Pow10(7) == 10_000_000;
    }
    Text.DecimalLength(if pid >= 0 then pid else -pid, 10);
  }

  /** The ids asked for are sent to the target's namespace, which has been entered or is the caller's. */
  predicate InTarget(c: NsCalls) {
    c.asked ==> c.cmp == 1 || (c.cmp == 0 && c.pathFits && c.openOk && c.setnsOk)
  }

  /** The exchange behind the namespaces succeeds. */
  predicate Exchanges(c: Calls) {
    && c.child != -1 && SocketSucceeds(c.client, false) && c.sendOk && !c.read.ReadError?
    && c.waited == c.child && c.status == 0
  }

  /** The ids come back translated by the target's namespaces. */
  predicate Translates(c: Calls) {
    c.nameFits && SocketSucceeds(c.server, true) && InTarget(c.pidNs) && InTarget(c.userNs) && Exchanges(c)
  }

  predicate CmpFails(c: NsCalls) { c.asked && c.cmp == -1 }

  /** The program's status is right, 0 exactly for a translation by the target's namespaces, unless
      - a namespace cannot be entered (or the name of the socket did not fit, which PathsFit excludes):
        getnsids then returns 1 where its comment promises -1;
      - the exchange succeeds although a comparison failed: getnsids takes that for the same namespace. */
  lemma MainStatusRightIff(c: Calls)
    requires -1 <= c.pidNs.cmp <= 1 && -1 <= c.userNs.cmp <= 1
    ensures (MainStatus(Verdict(c)) == 0 <==> Translates(c)) <==>
              && c.nameFits
              && (SocketSucceeds(c.server, true) ==>
                    && Entered(c.pidNs) && Entered(c.userNs)
                    && !(Exchanges(c) && (CmpFails(c.pidNs) || CmpFails(c.userNs))))
  {
  }

  /** A status 0 means that getnsids returned 0 in the target's namespaces if and only if no comparison
      it asked for failed and the namespaces it had to enter have been entered. */
  lemma StatusZeroIff(c: Calls)
    requires -1 <= c.pidNs.cmp <= 1 && -1 <= c.userNs.cmp <= 1
    requires c.nameFits && MainStatus(Verdict(c)) == 0
    ensures Translates(c) <==>
              Entered(c.pidNs) && Entered(c.userNs) && !CmpFails(c.pidNs) && !CmpFails(c.userNs)
  {
  }

  /** Calls with which every call succeeds but those for the pid namespace, which are given. */
  function AllElseFine(pidNs: NsCalls): Calls {
    var fine := SocketCalls(true, true, true, true, true, true);
    Calls(true, fine, pidNs, NsCalls(false, 1, true, true, true), 2, fine, true, Whole(Ids(1, 0, 0)), 2, 0, true)
  }

  /** The target's pid namespace is another one, and setns is refused.  The program reports success,
      although nothing was translated. */
  lemma RefusedNamespaceLooksFine()
    ensures var c := AllElseFine(NsCalls(true, 0, true, true, false));
            Verdict(c) == 1 && MainStatus(Verdict(c)) == 0 && !Translates(c) && !Stores(c)
  {
  }

  /** The target does not exist, so that cmp_ns fails.  The program reports success, although the ids went
      through the caller's own namespace. */
  lemma MissingTargetLooksFine()
    ensures var c := AllElseFine(NsCalls(true, -1, true, true, true));
            Verdict(c) == 0 && MainStatus(Verdict(c)) == 0 && !Translates(c) && Stores(c)
  {
  }
}
