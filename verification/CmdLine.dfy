/** The command lines `newuidmap pid ...` and `newgidmap pid ...` of shns3.c: the growing list of
    maps, and the buffer they are written into. */
module CmdLine {
  import opened Runs
  import opened Text

  /** Number of values of a size_t. */
  const SIZE_T: nat := 0x1_0000_0000_0000_0000

  /** Room the source reserves for the pid. */
  const PID_ROOM: nat := 8

  /** The text make_cmdline is meant to build. */
  function Line(cmd: string, pid: int, maps: seq<string>): string {
    cmd + [' '] + (DecimalInt(pid) + [' '] + Join(maps, ' '))
  }

  /** The maps, each with one character for what follows it (a space, or the final NUL). */
  function TotalLength(maps: seq<string>): nat {
    if |maps| == 0 then 0 else |maps[0]| + 1 + TotalLength(maps[1..])
  }

  /** The size given to malloc. */
  function Allocated(cmd: string, maps: seq<string>): nat {
    |cmd| + 1 + PID_ROOM + 1 + TotalLength(maps)
  }

  /** The words of each map, one map after the other. */
  function Fields(maps: seq<string>): seq<string> {
    if |maps| == 0 then [] else Split(maps[0], ' ') + Fields(maps[1..])
  }

  // ----- the list of maps -----

  /** `char **map; int nmap`, grown by one for each -u or -g option. */
  class MapList {
    var maps: array?<Option<string>>
    var nmap: nat

    ghost predicate Valid()
      reads this, maps
    {
      && (maps == null ==> nmap == 0)
      && (maps != null ==> maps.Length == nmap && forall i :: 0 <= i < nmap ==> maps[i].Some?)
    }

    ghost function Contents(): (s: seq<string>)
      requires Valid()
      reads this, maps
      ensures |s| == nmap
    {
      if maps == null then []
      else seq(nmap, i requires 0 <= i < nmap reads this, maps requires Valid() && maps != null => maps[i].value)
    }

    constructor ()
      ensures Valid() && Contents() == []
    {
      maps := null;
      nmap := 0;
    }

    /** `reallocOk` and `strdupOk` say whether the two allocations succeed.  A failed call leaves the
        list unusable, with the count already raised. */
    method AddMap(text: string, reallocOk: bool, strdupOk: bool) returns (rc: int)
      requires Valid()
      modifies this
      ensures rc == if reallocOk && strdupOk then 0 else -1
      ensures nmap == old(nmap) + 1
      ensures rc == 0 ==> Valid() && Contents() == old(Contents()) + [text]
      ensures rc != 0 ==> !Valid()
      ensures !reallocOk ==> maps == null
      ensures reallocOk && !strdupOk ==>
                && maps != null && maps.Length == nmap && maps[nmap - 1] == None
                && forall i :: 0 <= i < nmap - 1 ==> maps[i] == Some(old(Contents())[i])
    {
      nmap := nmap + 1;
      if !reallocOk {
        maps := null;
        return -1;
      }
      var bigger := new Option<string>[nmap](_ => None);
      var i := 0;
      while i < nmap - 1
        invariant 0 <= i <= nmap - 1
        invariant nmap == old(nmap) + 1 && maps == old(maps)
        invariant maps != null ==> maps[..] == old(maps[..])
        invariant forall j :: 0 <= j < i ==> maps != null && bigger[j] == maps[j]
      {
        bigger[i] := maps[i];
        i := i + 1;
      }
      maps := bigger;
      maps[nmap - 1] := if strdupOk then Some(text) else None;
      return if strdupOk then 0 else -1;
    }
  }

  // ----- the buffer -----

  /** snprintf of an already formatted text at offset `off`, with room for `size` characters
      counting the NUL.  Returns the length the text needs, as the C function does. */
  method Snprintf(buf: array<char>, off: nat, size: nat, text: string) returns (rc: nat)
    requires size > 0 ==> off + (if |text| < size then |text| else size - 1) < buf.Length
    modifies buf
    ensures rc == |text|
    ensures var n := if |text| < size then |text| else size - 1;
            if size == 0 then buf[..] == old(buf[..])
            else
              && buf[..off + n] == old(buf[..off]) + text[..n]
              && buf[off + n] == NUL
              && buf[off + n + 1..] == old(buf[..])[off + n + 1..]
  {
    if size > 0 {
      var n := if |text| < size then |text| else size - 1;
      var i := 0;
      while i < n
        invariant 0 <= i <= n
        invariant buf[..off + i] == old(buf[..off]) + text[..i]
        invariant buf[off + i..] == old(buf[..])[off + i..]
      {
        buf[off + i] := text[i];
        assert buf[..off + i + 1] == buf[..off + i] + [text[i]];
        assert text[..i + 1] == text[..i] + [text[i]];
        i := i + 1;
      }
      ghost var mid := buf[..];
      buf[off + n] := NUL;
      assert buf[..off + n] == mid[..off + n];
      assert buf[off + n + 1..] == mid[off + n..][1..];
      assert old(buf[..])[off + n..][1..] == old(buf[..])[off + n + 1..];
    }
    rc := |text|;
  }

  /** `l -= rc` on a size_t. */
  function SubSize(l: nat, rc: nat): nat { (l - rc) % SIZE_T }

  /** The size computed by the first loop of make_cmdline. */
  method CmdlineSize(cmd: string, maps: seq<string>) returns (l: nat)
    ensures l == Allocated(cmd, maps)
  {
    l := |cmd| + 1;
    l := l + 8 + 1;
    var i := 0;
    while i < |maps|
      invariant 0 <= i <= |maps|
      invariant l + TotalLength(maps[i..]) == Allocated(cmd, maps)
    {
      l := l + |maps[i]| + 1;
      i := i + 1;
    }
  }

  /** What the second loop writes for map i. */
  function MapText(maps: seq<string>, i: nat): string
    requires i < |maps|
  {
    if i < |maps| - 1 then maps[i] + " " else maps[i]
  }

  lemma MapTextStep(maps: seq<string>, i: nat)
    requires i < |maps|
    ensures Join(maps[i..], ' ') == MapText(maps, i) + Join(maps[i + 1..], ' ')
    ensures TotalLength(maps[i..]) == |maps[i]| + 1 + TotalLength(maps[i + 1..])
    ensures TotalLength(maps[i + 1..]) >= |maps| - (i + 1)
  {
    assert maps[i..][1..] == maps[i + 1..];
    TotalAtLeast(maps[i + 1..]);
  }

  lemma SizeExact(l: int)
    requires 0 <= l < SIZE_T
    ensures l % SIZE_T == l
  {
  }

  /** The buffer holds the text as far as it has room for it, NUL-terminated. */
  ghost predicate Shows(buf: seq<char>, text: string) {
    && |buf| > 0
    && buf[..|Clip(text, |buf|)|] == Clip(text, |buf|)
    && buf[|Clip(text, |buf|)|] == NUL
  }

  /** One snprintf behind the first `p` characters `done`, then `p += rc; l -= rc`.  `inside` is false
      when `p` has left the buffer and `l` has wrapped: the C call is then undefined, and the model stops. */
  method Append(buf: array<char>, p: nat, l: nat, text: string, ghost done: string)
    returns (p': nat, l': nat, inside: bool)
    requires 0 < buf.Length < SIZE_T
    requires p == |done| && l == (buf.Length - p) % SIZE_T
    requires p == 0 || Shows(buf[..], done)
    modifies buf
    ensures inside <==> p <= buf.Length
    ensures inside ==> p' == |done + text| && l' == (buf.Length - p') % SIZE_T && Shows(buf[..], done + text)
    ensures !inside ==> l' == l
  {
    if p > buf.Length {
      return p, l, false;
    }
    SizeExact(buf.Length - p);
    var rc := Snprintf(buf, p, l, text);
    if l > 0 {
      var n := if |text| < l then |text| else l - 1;
      assert Clip(done + text, buf.Length) == done + text[..n];
    } else {
      assert Clip(done + text, buf.Length) == Clip(done, buf.Length);
    }
    p', l', inside := p + rc, SubSize(l, rc), true;
  }

  /** The room in front of map i, and behind the last one; negative when `p` has left the buffer. */
  function Room(d: nat, maps: seq<string>, i: nat): int
    requires i <= |maps|
  {
    PID_ROOM - d + if i < |maps| then TotalLength(maps[i..]) else 1
  }

  lemma {:induction false} LastMapRoom(d: nat, maps: seq<string>, i: nat)
    requires i < |maps|
    ensures Room(d, maps, i) >= PID_ROOM + 1 + |maps[|maps| - 1]| - d
    ensures i == |maps| - 1 ==> Room(d, maps, i) == PID_ROOM + 1 + |maps[i]| - d
    decreases |maps| - i
  {
    MapTextStep(maps, i);
    if i < |maps| - 1 {
      LastMapRoom(d, maps, i + 1);
    }
  }

  lemma RoomStep(d: nat, maps: seq<string>, i: nat)
    requires i < |maps|
    ensures Room(d, maps, i + 1) == Room(d, maps, i) - |MapText(maps, i)|
  {
    MapTextStep(maps, i);
    if i == |maps| - 1 {
      assert TotalLength(maps[i + 1..]) == 0;
    }
  }

  /** The second loop: the maps written behind the text `head` of the buffer. */
  method WriteMaps(buf: array<char>, head: string, room: nat, maps: seq<string>, ghost d: nat)
    returns (l: nat, inside: bool)
    requires |maps| >= 1 && 0 < buf.Length < SIZE_T
    requires buf.Length - |head| == Room(d, maps, 0) && room == Room(d, maps, 0) % SIZE_T
    requires Shows(buf[..], head)
    modifies buf
    ensures inside <==> d <= PID_ROOM + 1 + |maps[|maps| - 1]|
    ensures inside ==> l == (PID_ROOM + 1 - d) % SIZE_T && Shows(buf[..], head + Join(maps, ' '))
    ensures !inside ==> exists i | 0 <= i < |maps| :: Room(d, maps, i) < 0 && l == Room(d, maps, i) % SIZE_T
  {
    l, inside := room, true;
    var p := |head|;
    var i := 0;
    ghost var done := head;
    while i < |maps|
      invariant 0 <= i <= |maps| && inside
      invariant p == |done| && buf.Length - p == Room(d, maps, i) && l == (buf.Length - p) % SIZE_T
      invariant Shows(buf[..], done)
      invariant done + Join(maps[i..], ' ') == head + Join(maps, ' ')
      invariant i == |maps| ==> d <= PID_ROOM + 1 + |maps[|maps| - 1]|
    {
      var text := MapText(maps, i);
      MapTextStep(maps, i);
      LastMapRoom(d, maps, i);
      RoomStep(d, maps, i);
      p, l, inside := Append(buf, p, l, text, done);
      if !inside {
        return;
      }
      done := done + text;
      i := i + 1;
    }
    assert maps[i..] == [] && done == head + Join(maps, ' ');
  }

  lemma WholeLine(buf: seq<char>, cmd: string, pid: int, maps: seq<string>)
    requires |maps| >= 1 && |DecimalInt(pid)| <= PID_ROOM
    requires |buf| == Allocated(cmd, maps) && Shows(buf, Line(cmd, pid, maps))
    ensures var line, spare := Line(cmd, pid, maps), PID_ROOM + 1 - |DecimalInt(pid)|;
            && |buf| == |line| + spare && spare % SIZE_T == spare
            && buf[..|line|] == line && buf[|line|] == NUL
  {
    JoinLength(maps);
    SizeExact(PID_ROOM + 1 - |DecimalInt(pid)|);
  }

  lemma Regroup(a: string, b: string, c: string)
    ensures a + " " + b + " " + c == a + [' '] + (b + [' '] + c)
  {
  }

  lemma HeadRoom(cmd: string, pid: int, maps: seq<string>)
    requires |maps| >= 1
    ensures var head := cmd + " " + DecimalInt(pid) + " ";
            && head + Join(maps, ' ') == Line(cmd, pid, maps)
            && Allocated(cmd, maps) - |head| == Room(|DecimalInt(pid)|, maps, 0)
  {
    Regroup(cmd, DecimalInt(pid), Join(maps, ' '));
    assert maps[0..] == maps;
  }

  /** The command, the pid and the maps, in one buffer.  `mallocOk` says whether malloc succeeds.
      The texts are in memory, so that their sizes add up in a size_t, and main calls this with at least
      one map.  `l` is the local variable of that name when the function returns.  A pid of at most 8
      characters leaves the whole line and room to spare; a longer one cuts the line, and if it also
      exceeds the last map by more than 9 characters, `l` wraps before the last snprintf. */
  method MakeCmdline(cmd: string, pid: int, maps: seq<string>, mallocOk: bool)
    returns (cmdline: array?<char>, l: nat, inside: bool)
    requires |maps| >= 1
    requires Allocated(cmd, maps) < SIZE_T
    ensures cmdline == null <==> !mallocOk
    ensures cmdline != null ==>
              && cmdline.Length == Allocated(cmd, maps)
              && (inside <==> |DecimalInt(pid)| <= PID_ROOM + 1 + |maps[|maps| - 1]|)
              && (inside ==> l == (PID_ROOM + 1 - |DecimalInt(pid)|) % SIZE_T)
              && (inside ==> Shows(cmdline[..], Line(cmd, pid, maps)))
              && (!inside ==> exists i | 0 <= i < |maps| ::
                    Room(|DecimalInt(pid)|, maps, i) < 0 && l == Room(|DecimalInt(pid)|, maps, i) % SIZE_T)
    ensures cmdline != null && |DecimalInt(pid)| <= PID_ROOM ==>
              && inside && l == PID_ROOM + 1 - |DecimalInt(pid)|
              && cmdline.Length == |Line(cmd, pid, maps)| + l
              && cmdline[..|Line(cmd, pid, maps)|] == Line(cmd, pid, maps)
              && cmdline[|Line(cmd, pid, maps)|] == NUL
  {
    l := CmdlineSize(cmd, maps);
    inside := true;
    if !mallocOk {
      return null, l, inside;
    }
    var buf := new char[l];
    var head := cmd + " " + DecimalInt(pid) + " ";
    HeadRoom(cmd, pid, maps);
    SizeExact(l);
    assert "" + head == head;
    var p;
    p, l, inside := Append(buf, 0, l, head, "");
    l, inside := WriteMaps(buf, head, l, maps, |DecimalInt(pid)|);
    cmdline := buf;
    if |DecimalInt(pid)| <= PID_ROOM {
      WholeLine(buf[..], cmd, pid, maps);
    }
  }

  lemma {:induction false} TotalAtLeast(maps: seq<string>)
    ensures TotalLength(maps) >= |maps|
    decreases |maps|
  {
    if |maps| != 0 { TotalAtLeast(maps[1..]); }
  }

  // ----- what the line is worth -----

  lemma {:induction false} JoinLength(maps: seq<string>)
    requires |maps| >= 1
    ensures |Join(maps, ' ')| + 1 == TotalLength(maps)
    decreases |maps|
  {
    if |maps| == 1 {
      assert TotalLength(maps[1..]) == 0;
    } else {
      JoinLength(maps[1..]);
    }
  }

  /** The reserved size holds the whole line and its NUL exactly when the pid has at most 8
      characters, whatever the command and the maps. */
  lemma RoomIffEightCharacters(cmd: string, pid: int, maps: seq<string>)
    requires |maps| >= 1
    ensures |Line(cmd, pid, maps)| + 1 <= Allocated(cmd, maps) <==> |DecimalInt(pid)| <= PID_ROOM
  {
    JoinLength(maps);
  }

  /** The room is not enough for every pid_t: a pid of 9 characters cuts the last one off. */
  lemma NineCharactersAreCut(cmd: string)
    ensures var pid, maps := 100_000_000, ["0 1000 1"];
            && |DecimalInt(pid)| == 9
            && |Clip(Line(cmd, pid, maps), Allocated(cmd, maps))| == |Line(cmd, pid, maps)| - 1
  {
    assert Pow10(4) == 10_000;
    assert Pow10(8) == 100_000_000;
    DecimalLength(100_000_000, 8);
    DecimalLength(100_000_000, 9);
    JoinLength(["0 1000 1"]);
  }

  /** For the 32 bits of a pid_t, `l` wraps before a further snprintf only if the last map has at most
      one character. */
  lemma WrapsOnlyBehindShortMap(pid: int, maps: seq<string>)
    requires |maps| >= 1 && -0x8000_0000 <= pid < 0x8000_0000
    requires |DecimalInt(pid)| > PID_ROOM + 1 + |maps[|maps| - 1]|
    ensures |maps[|maps| - 1]| <= 1 && (|maps[|maps| - 1]| == 1 ==> pid < 0)
  {
    assert Pow10(10) == 10_000_000_000 by {
      assert Pow10(4) == 10_000;
      assert Pow10(7) == 10_000_000;
    }
    DecimalLength(if pid >= 0 then pid else -pid, 10);
  }

  /** Linux never numbers a process above 2^22, so that the pid of a forked child fits. */
  lemma KernelPidFits(pid: nat)
    requires pid <= 0x40_0000
    ensures |DecimalInt(pid)| <= PID_ROOM
  {
    assert Pow10(8) == 100_000_000 by {
      assert Pow10(4) == 10_000;
    }
    DecimalLength(pid, PID_ROOM);
  }

  lemma {:induction false} SplitMaps(maps: seq<string>)
    requires |maps| >= 1
    ensures Split(Join(maps, ' '), ' ') == Fields(maps)
    decreases |maps|
  {
    if |maps| == 1 {
      assert Fields(maps[1..]) == [];
    } else {
      SplitMaps(maps[1..]);
      SplitConcat(maps[0], Join(maps[1..], ' '), ' ');
    }
  }

  lemma OneMore(a: string, b: string, rest: seq<string>)
    ensures [a] + ([b] + rest) == [a, b] + rest
  {
  }

  /** The arguments the shell passes to the command: cutting the line at spaces gives back the
      command, the pid, and the fields of the maps in the order of the options; and the pid field
      denotes the pid. */
  lemma LineRoundTrip(cmd: string, pid: nat, maps: seq<string>)
    requires ' ' !in cmd
    requires |maps| >= 1
    ensures Split(Line(cmd, pid, maps), ' ') == [cmd, Decimal(pid)] + Fields(maps)
    ensures Parse(Decimal(pid)) == pid
  {
    SplitPiece(cmd, ' ', Decimal(pid) + [' '] + Join(maps, ' '));
    assert ' ' !in Decimal(pid);
    SplitPiece(Decimal(pid), ' ', Join(maps, ' '));
    OneMore(cmd, Decimal(pid), Split(Join(maps, ' '), ' '));
    SplitMaps(maps);
    ParseDecimal(pid);
  }
}
