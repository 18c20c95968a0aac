/** Start-up and clean-up of the named objects of prodcons4.c, and start-up of prodcons.c.

    The objects outlive the processes: a start finds whatever earlier runs have left. */
module Startup {
  import opened Runs
  import opened Text
  import Mailbox

  const SHM_SIZE: nat := 4096

  /** sizeof(sem_t), which prodcons.c puts in front of its zone. */
  const SEM_T_SIZE: nat := 32

  /** The objects behind "/mdate" and "/sdate". */
  datatype Objects = Objects(shm: Option<seq<char>>, sem: Option<nat>)

  function Zeros(n: nat): (z: seq<char>)
    ensures |z| == n && Mailbox.AllZero(z)
  {
    seq(n, _ => NUL)
  }

  /** ftruncate: cut, or extended with zeros. */
  function Resize(s: seq<char>, n: nat): (r: seq<char>)
    ensures |r| == n
  {
    if n <= |s| then s[..n] else s + Zeros(n - |s|)
  }

  /** Which of the calls of clean_ipc succeed as far as that is up to the system: an unlink also needs
      its object. */
  datatype CleanCalls = CleanCalls(
    closeOk: bool, munmapOk: bool, shmUnlinkOk: bool, semCloseOk: bool, semUnlinkOk: bool)

  /** The same for main up to its loop; the two opens with O_CREAT have the objects' names. */
  datatype StartCalls = StartCalls(
    clean: CleanCalls, shmOpenOk: bool, semCloseOk: bool, semUnlinkOk: bool, semOpenOk: bool,
    truncateOk: bool, mmapOk: bool)

  /** What a start with or without -d does to the objects; the first component says whether it gets to
      the loop. */
  function Start(o: Objects, cleanup: bool, c: StartCalls): (bool, Objects) {
    if o.shm.Some? && !(cleanup && c.clean.closeOk && c.clean.shmUnlinkOk) then (false, o)
    else if !c.shmOpenOk then (false, o.(shm := None))
    else if o.sem.Some? && !(cleanup && c.semCloseOk && c.semUnlinkOk) then (false, o.(shm := Some([])))
    else if !c.semOpenOk then (false, Objects(Some([]), None))
    else if !c.truncateOk then (false, Objects(Some([]), Some(1)))
    else (c.mmapOk, Objects(Some(Zeros(SHM_SIZE)), Some(1)))
  }

  /** Every call that a start makes on the objects `o` succeeds. */
  predicate CallsSucceed(o: Objects, c: StartCalls) {
    && (o.shm.Some? ==> c.clean.closeOk && c.clean.shmUnlinkOk)
    && (o.sem.Some? ==> c.semCloseOk && c.semUnlinkOk)
    && c.shmOpenOk && c.semOpenOk && c.truncateOk && c.mmapOk
  }

  /** The producer's globals idm, pShm and ids, and the objects. */
  class Producer4 {
    var shm: Option<seq<char>>
    var sem: Option<nat>
    var idm: int           // -1, or the descriptor of the segment
    var mapped: bool       // pShm is set
    var idsOpen: bool      // ids is not SEM_FAILED

    constructor (o: Objects)
      ensures shm == o.shm && sem == o.sem && idm == -1 && !mapped && !idsOpen
    {
      shm, sem, idm, mapped, idsOpen := o.shm, o.sem, -1, false, false;
    }

    /** clean_ipc.  It ends the process with status 1 at the first call that fails, shm_unlink and
        sem_unlink also when they find nothing.  It leaves the variables idm and ids as they are. */
    method CleanIpc(c: CleanCalls) returns (exits: bool)
      modifies this
      ensures var unmaps := old(idm) < 0 || c.closeOk;
              var unlinks := unmaps && (!old(mapped) || c.munmapOk);
              var removed := unlinks && old(shm).Some? && c.shmUnlinkOk;
              && (exits <==> !removed || (idsOpen && !(c.semCloseOk && old(sem).Some? && c.semUnlinkOk)))
              && shm == (if removed then None else old(shm))
              && sem == (if !exits && idsOpen then None else old(sem))
              && mapped == (old(mapped) && !unlinks)
      ensures idm == old(idm) && idsOpen == old(idsOpen)
    {
      if idm >= 0 {
        if !c.closeOk {
          return true;
        }
      }
      if mapped {
        if !c.munmapOk {
          return true;
        }
        mapped := false;
      }
      if shm.None? || !c.shmUnlinkOk {
        return true;
      }
      shm := None;
      if idsOpen {
        if !c.semCloseOk {
          return true;
        }
        if sem.None? || !c.semUnlinkOk {
          return true;
        }
        sem := None;
      }
      exits := false;
    }

    /** main of the producer up to its loop; `cleanup` is the option -d, and `fd` the number of a new
        descriptor.  0 stands for entering the loop. */
    method StartUp(cleanup: bool, c: StartCalls, fd: nat) returns (rc: int)
      requires idm == -1 && !mapped && !idsOpen
      modifies this
      ensures rc == if Start(Objects(old(shm), old(sem)), cleanup, c).0 then 0 else 1
      ensures Objects(shm, sem) == Start(Objects(old(shm), old(sem)), cleanup, c).1
      ensures rc == 0 ==> idm == -1 && mapped && idsOpen
    {
      rc := OpenSegment(cleanup, c, fd);
      if rc != 0 {
        return;
      }
      rc := OpenSemaphore(cleanup, c);
      if rc != 0 {
        return;
      }
      if !c.truncateOk {
        return 1;
      }
      shm := Some(Resize(shm.value, SHM_SIZE));
      assert shm.value == Zeros(SHM_SIZE);
      if !c.mmapOk {
        return 1;
      }
      mapped := true;
      idm := -1;
      var zone, i := shm.value, 0;
      while i < SHM_SIZE
        invariant 0 <= i <= SHM_SIZE == |zone|
        invariant forall j :: 0 <= j < i ==> zone[j] == NUL
      {
        zone := zone[i := NUL];
        i := i + 1;
      }
      assert zone == Zeros(SHM_SIZE);
      shm := Some(zone);
      rc := 0;
    }

    /** The part of main that gets a segment; 0 when it has an empty one. */
    method OpenSegment(cleanup: bool, c: StartCalls, fd: nat) returns (rc: int)
      requires idm == -1 && !mapped && !idsOpen
      modifies this
      ensures var kept := old(shm).Some? && !(cleanup && c.clean.closeOk && c.clean.shmUnlinkOk);
              && rc == (if kept || !c.shmOpenOk then 1 else 0)
              && shm == (if kept then old(shm) else if !c.shmOpenOk then None else Some([]))
      ensures sem == old(sem) && !mapped && !idsOpen
    {
      idm := if shm.Some? then fd else -1;
      if idm >= 0 {
        if cleanup {
          var exits := CleanIpc(c.clean);
          if exits {
            return 1;
          }
          idm := -1;
          if c.shmOpenOk {
            shm := Some([]);
            idm := fd;
          }
          if idm < 0 {
            return 1;
          }
        } else {
          return 1;
        }
      } else {
        if c.shmOpenOk {
          shm := Some([]);
          idm := fd;
        }
        if idm < 0 {
          return 1;
        }
      }
      rc := 0;
    }

    /** The part of main that gets a semaphore; 0 when it has one with the value 1. */
    method OpenSemaphore(cleanup: bool, c: StartCalls) returns (rc: int)
      requires !idsOpen
      modifies this
      ensures var kept := old(sem).Some? && !(cleanup && c.semCloseOk && c.semUnlinkOk);
              && rc == (if kept || !c.semOpenOk then 1 else 0)
              && sem == (if kept then old(sem) else if !c.semOpenOk then None else Some(1))
      ensures rc == 0 ==> idsOpen
      ensures shm == old(shm) && mapped == old(mapped)
    {
      idsOpen := sem.Some?;
      if idsOpen {
        if cleanup {
          if !c.semCloseOk {
            return 1;
          }
          if !c.semUnlinkOk {
            return 1;
          }
          sem := None;
          idsOpen := c.semOpenOk;
          if !idsOpen {
            return 1;
          }
          sem := Some(1);
        } else {
          return 1;
        }
      } else {
        idsOpen := c.semOpenOk;
        if !idsOpen {
          return 1;
        }
        sem := Some(1);
      }
      rc := 0;
    }
  }

  /** A start gets to the loop exactly when its calls succeed and -d is given or neither object exists;
      from whatever was there, the zone and the semaphore then are the ones the mailbox starts from. */
  lemma StartEstablishesMailbox(o: Objects, cleanup: bool, c: StartCalls)
    ensures Start(o, cleanup, c).0 <==> CallsSucceed(o, c) && (cleanup || (o.shm.None? && o.sem.None?))
    ensures Start(o, cleanup, c).0 ==>
              var m := Mailbox.Init(SHM_SIZE);
              Start(o, cleanup, c).1 == Objects(Some(m.zone), Some(m.sem)) && Mailbox.Reaches(SHM_SIZE, [], m)
  {
    assert Zeros(SHM_SIZE) == Mailbox.Init(SHM_SIZE).zone;
  }

  /** The objects after a number of further starts without -d. */
  function Retry(o: Objects, tries: seq<StartCalls>): Objects
    decreases |tries|
  {
    if |tries| == 0 then o else Retry(Start(o, false, tries[0]).1, tries[1..])
  }

  /** A start without -d that fails leaves a segment behind, unless it found none and could not create
      one.  No later start without -d then succeeds, whatever its calls return; the next one with -d
      does if its calls succeed. */
  lemma {:induction false} FailedStartSticks(o: Objects, first: StartCalls, tries: seq<StartCalls>, last: StartCalls)
    requires !Start(o, false, first).0
    ensures Start(o, false, first).1.shm.Some? <==> o.shm.Some? || first.shmOpenOk
    ensures o.shm.Some? || first.shmOpenOk ==>
              var later := Retry(Start(o, false, first).1, tries);
              && !Start(later, false, last).0
              && (Start(later, true, last).0 <==> CallsSucceed(later, last))
  {
    if o.shm.Some? || first.shmOpenOk {
      SegmentSticks(Start(o, false, first).1, tries);
    }
  }

  lemma {:induction false} SegmentSticks(o: Objects, tries: seq<StartCalls>)
    requires o.shm.Some?
    ensures Retry(o, tries) == o
    decreases |tries|
  {
    if |tries| != 0 {
      SegmentSticks(o, tries[1..]);
    }
  }

  /** So it goes when an earlier run has left the semaphore alone: no call fails, and yet this start and
      all later ones without -d do. */
  lemma SemaphoreAloneSticks(value: nat, c: StartCalls, tries: seq<StartCalls>, last: StartCalls)
    requires CallsSucceed(Objects(None, Some(value)), c)
    ensures var o := Objects(None, Some(value));
            && !Start(o, false, c).0
            && Retry(Start(o, false, c).1, tries) == Objects(Some([]), Some(value))
            && !Start(Objects(Some([]), Some(value)), false, last).0
  {
    SegmentSticks(Objects(Some([]), Some(value)), tries);
  }

  /** Starting with -d, then the clean-up of the Ctrl-C handler, leaves no object if no call fails, so
      that a start without -d succeeds. */
  method StartThenClean(o: Objects, c: StartCalls, handler: CleanCalls) returns (left: Objects)
    requires CallsSucceed(o, c)
    requires handler.munmapOk && handler.shmUnlinkOk && handler.semCloseOk && handler.semUnlinkOk
    ensures left == Objects(None, None) && Start(left, false, c).0
  {
    var p := new Producer4(o);
    var rc := p.StartUp(true, c, 3);
    var exits := p.CleanIpc(handler);
    left := Objects(p.shm, p.sem);
  }

  // ----- prodcons.c -----

  /** The segment behind the key, null when there is none, and the semaphore in its first bytes. */
  class ProducerSysV {
    var segment: array?<char>
    var sem: nat

    constructor (earlier: array?<char>)
      ensures segment == earlier
    {
      segment, sem := earlier, 0;
    }

    /** main of the producer up to its loop; 0 stands for entering it.  `created` is the memory the
        kernel takes for a new segment, with any contents.  The earlier segment is removed if it can be;
        a new one cannot be created while it is there. */
    method StartUp(created: array<char>, removeOk: bool, createOk: bool, attachOk: bool, semInitOk: bool)
      returns (rc: int, ghost zone: seq<char>)
      requires created.Length == SHM_SIZE && created != segment
      modifies this, created
      ensures rc == if (old(segment) == null || removeOk) && createOk && attachOk && semInitOk then 0 else 1
      ensures segment == if old(segment) != null && !removeOk then old(segment)
                         else if createOk then created else null
      ensures zone == created[SEM_T_SIZE..] && created[..SEM_T_SIZE] == old(created[..SEM_T_SIZE])
      ensures rc == 0 ==>
                Mailbox.Init(SHM_SIZE - SEM_T_SIZE) == Mailbox.State(sem, zone, map[], Mailbox.NO_HISTORY)
      ensures rc != 0 ==> created[..] == old(created[..])
    {
      zone := created[SEM_T_SIZE..];
      if segment != null && removeOk {
        segment := null;
      }
      if segment != null || !createOk {
        return 1, zone;
      }
      segment := created;
      if !attachOk {
        return 1, zone;
      }
      if !semInitOk {
        return 1, zone;
      }
      sem := 1;
      var i := SEM_T_SIZE;
      while i < segment.Length
        invariant SEM_T_SIZE <= i <= created.Length && segment == created && sem == 1
        invariant forall j :: SEM_T_SIZE <= j < i ==> created[j] == NUL
        invariant created[..SEM_T_SIZE] == old(created[..SEM_T_SIZE])
      {
        segment[i] := NUL;
        i := i + 1;
      }
      zone := created[SEM_T_SIZE..];
      assert zone == Mailbox.Init(SHM_SIZE - SEM_T_SIZE).zone;
      rc := 0;
    }
  }
}
