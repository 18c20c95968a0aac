/** userns_child_exec.c: the options, the map strings, and the files the parent writes for the child. */
module UsernsExec {
  import opened Runs
  import opened Text

  // ----- map strings -----

  datatype UpdateResult = OpenFailed | WriteFailed | Written(text: string)

  /** update_map: commas become newlines in place, then the string is written in one call.  `openOk`
      and `writeRc` are what open and write return; a failure ends the process. */
  method UpdateMap(mapping: array<char>, openOk: bool, writeRc: int) returns (r: UpdateResult)
    requires NUL in mapping[..]
    modifies mapping
    ensures CStr(mapping[..]) == Replace(CStr(old(mapping[..])), ',', '\n')
    ensures mapping[StrLen(old(mapping[..]))..] == old(mapping[StrLen(mapping[..])..])
    ensures r == if !openOk then OpenFailed
                 else if writeRc != StrLen(old(mapping[..])) then WriteFailed
                 else Written(CStr(mapping[..]))
  {
    var len := StrLen(mapping[..]);
    ghost var text := CStr(mapping[..]);
    var j := 0;
    while j < len
      invariant 0 <= j <= len
      invariant mapping[..j] == Replace(text[..j], ',', '\n')
      invariant mapping[j..] == old(mapping[..])[j..]
    {
      if mapping[j] == ',' {
        mapping[j] := '\n';
      }
      j := j + 1;
    }
    assert text[..len] == text;
    assert mapping[..len] == Replace(text, ',', '\n');
    if !openOk {
      return OpenFailed;
    }
    if writeRc != len {
      return WriteFailed;
    }
    r := Written(mapping[..len]);
  }

  /** The newline-separated records the kernel reads are the comma-separated records of the option. */
  lemma RecordsKept(text: string)
    requires '\n' !in text
    ensures |Replace(text, ',', '\n')| == |text|
    ensures Split(Replace(text, ',', '\n'), '\n') == Split(text, ',')
  {
    SplitReplace(text, ',', '\n');
  }

  // ----- options -----

  datatype Namespace = Ipc | Mnt | Net | PidNs | Uts | User

  /** One option as getopt returns it; Unknown stands for '?' and any other value. */
  datatype Opt = New(ns: Namespace) | Verbose | MapZero | UidMap(arg: string) | GidMap(arg: string) | Unknown

  datatype Options = Options(flags: set<Namespace>, verbose: bool, mapZero: bool,
                             uidMap: Option<string>, gidMap: Option<string>)

  const NO_OPTIONS := Options({}, false, false, None, None)

  function Apply(o: Options, opt: Opt): Options {
    match opt
    case New(ns) => o.(flags := o.flags + {ns})
    case Verbose => o.(verbose := true)
    case MapZero => o.(mapZero := true)
    case UidMap(arg) => o.(uidMap := Some(arg))
    case GidMap(arg) => o.(gidMap := Some(arg))
    case Unknown => o
  }

  function Fold(opts: seq<Opt>): Options
    decreases |opts|
  {
    if |opts| == 0 then NO_OPTIONS else Apply(Fold(opts[..|opts| - 1]), opts[|opts| - 1])
  }

  ghost predicate HasUidMap(opts: seq<Opt>) { exists i :: 0 <= i < |opts| && opts[i].UidMap? }

  ghost predicate HasGidMap(opts: seq<Opt>) { exists i :: 0 <= i < |opts| && opts[i].GidMap? }

  /** The options the program runs with: -z, -M and -G need -U, and -z excludes -M and -G. */
  ghost predicate Accepted(opts: seq<Opt>) {
    && Unknown !in opts
    && (HasUidMap(opts) || HasGidMap(opts) || MapZero in opts ==> New(User) in opts)
    && !(MapZero in opts && (HasUidMap(opts) || HasGidMap(opts)))
  }

  lemma {:induction false} FoldOccurrences(opts: seq<Opt>)
    ensures forall ns :: ns in Fold(opts).flags <==> New(ns) in opts
    ensures Fold(opts).mapZero <==> MapZero in opts
    ensures Fold(opts).verbose <==> Verbose in opts
    ensures Fold(opts).uidMap.Some? <==> HasUidMap(opts)
    ensures Fold(opts).gidMap.Some? <==> HasGidMap(opts)
    decreases |opts|
  {
    if |opts| != 0 {
      var init, last := opts[..|opts| - 1], opts[|opts| - 1];
      FoldOccurrences(init);
      assert opts == init + [last];
      assert opts[|opts| - 1] == last;
      assert forall i :: 0 <= i < |init| ==> opts[i] == init[i];
    }
  }

  /** `arg` is the argument of the last -M, or of the last -G. */
  ghost predicate LastUidMap(opts: seq<Opt>, arg: string) {
    exists i :: 0 <= i < |opts| && opts[i] == UidMap(arg) && forall j :: i < j < |opts| ==> !opts[j].UidMap?
  }

  ghost predicate LastGidMap(opts: seq<Opt>, arg: string) {
    exists i :: 0 <= i < |opts| && opts[i] == GidMap(arg) && forall j :: i < j < |opts| ==> !opts[j].GidMap?
  }

  /** The last -M and the last -G win. */
  lemma {:induction false} FoldLast(opts: seq<Opt>, arg: string)
    ensures Fold(opts).uidMap == Some(arg) <==> LastUidMap(opts, arg)
    ensures Fold(opts).gidMap == Some(arg) <==> LastGidMap(opts, arg)
    decreases |opts|
  {
    if |opts| != 0 {
      var init, last := opts[..|opts| - 1], opts[|opts| - 1];
      FoldLast(init, arg);
      LastSnoc(init, last, arg);
      assert opts == init + [last];
    }
  }

  lemma LastSnoc(init: seq<Opt>, last: Opt, arg: string)
    ensures LastUidMap(init + [last], arg) <==> last == UidMap(arg) || (!last.UidMap? && LastUidMap(init, arg))
    ensures LastGidMap(init + [last], arg) <==> last == GidMap(arg) || (!last.GidMap? && LastGidMap(init, arg))
  {
    var opts := init + [last];
    assert opts[|init|] == last && forall i :: 0 <= i < |init| ==> opts[i] == init[i];
    if !last.UidMap? && LastUidMap(init, arg) {
      var i :| 0 <= i < |init| && init[i] == UidMap(arg) && forall j :: i < j < |init| ==> !init[j].UidMap?;
      assert opts[i] == UidMap(arg) && forall j :: i < j < |opts| ==> !opts[j].UidMap?;
    }
    if !last.GidMap? && LastGidMap(init, arg) {
      var i :| 0 <= i < |init| && init[i] == GidMap(arg) && forall j :: i < j < |init| ==> !init[j].GidMap?;
      assert opts[i] == GidMap(arg) && forall j :: i < j < |opts| ==> !opts[j].GidMap?;
    }
  }

  /** The option loop of main and the check behind it; None when it ends in usage(). */
  method ParseOptions(opts: seq<Opt>) returns (r: Option<Options>)
    ensures r.Some? <==> Accepted(opts)
    ensures r.Some? ==> r.value == Fold(opts)
  {
    var flags, verbose, mapZero := {}, false, false;
    var uidMap, gidMap := None, None;
    var i := 0;
    while i < |opts|
      invariant 0 <= i <= |opts|
      invariant Unknown !in opts[..i]
      invariant Options(flags, verbose, mapZero, uidMap, gidMap) == Fold(opts[..i])
    {
      assert opts[..i + 1][..i] == opts[..i];
      match opts[i] {
        case New(ns) => flags := flags + {ns};
        case Verbose => verbose := true;
        case MapZero => mapZero := true;
        case UidMap(arg) => uidMap := Some(arg);
        case GidMap(arg) => gidMap := Some(arg);
        case Unknown => return None;
      }
      i := i + 1;
    }
    assert opts[..i] == opts;
    FoldOccurrences(opts);
    if ((uidMap.Some? || gidMap.Some? || mapZero) && User !in flags)
       || (mapZero && (uidMap.Some? || gidMap.Some?)) {
      return None;
    }
    r := Some(Options(flags, verbose, mapZero, uidMap, gidMap));
  }

  /** The letter of an option on the command line. */
  function Letter(o: Opt): char {
    match o
    case New(Ipc) => 'i'
    case New(Mnt) => 'm'
    case New(Net) => 'n'
    case New(PidNs) => 'p'
    case New(Uts) => 'u'
    case New(User) => 'U'
    case Verbose => 'v'
    case MapZero => 'z'
    case UidMap(_) => 'M'
    case GidMap(_) => 'G'
    case Unknown => '?'
  }

  /** In the order of the option string given to getopt, without its colons. */
  lemma LettersOfGetopt(m: string, g: string)
    ensures "imnpuUMGzv" ==
            [Letter(New(Ipc)), Letter(New(Mnt)), Letter(New(Net)), Letter(New(PidNs)), Letter(New(Uts)),
             Letter(New(User)), Letter(UidMap(m)), Letter(GidMap(g)), Letter(MapZero), Letter(Verbose)]
  {
  }

  function Letters(opts: seq<Opt>): set<char> { set o | o in opts :: Letter(o) }

  const DECISIVE: set<char> := {'U', 'M', 'G', 'z', '?'}

  /** Whether an option list is accepted can be told from the letters that occur in it. */
  lemma AcceptedLetters(opts: seq<Opt>)
    ensures Accepted(opts) <==>
              && '?' !in Letters(opts)
              && (Letters(opts) !! {'M', 'G', 'z'} || 'U' in Letters(opts))
              && !('z' in Letters(opts) && ('M' in Letters(opts) || 'G' in Letters(opts)))
  {
    assert 'U' in Letters(opts) <==> New(User) in opts;
    assert 'z' in Letters(opts) <==> MapZero in opts;
    assert '?' in Letters(opts) <==> Unknown in opts;
    MapLetters(opts);
  }

  lemma MapLetters(opts: seq<Opt>)
    ensures 'M' in Letters(opts) <==> HasUidMap(opts)
    ensures 'G' in Letters(opts) <==> HasGidMap(opts)
  {
    forall i | 0 <= i < |opts| ensures Letter(opts[i]) in Letters(opts) {
      assert opts[i] in opts;
    }
  }

  /** Acceptance depends on which of -U, -M, -G, -z and unknown options occur, not on their order,
      number or arguments, nor on any other option. */
  lemma AcceptanceByOccurrence(a: seq<Opt>, b: seq<Opt>)
    requires Letters(a) * DECISIVE == Letters(b) * DECISIVE
    ensures Accepted(a) <==> Accepted(b)
  {
    AcceptedLetters(a);
    AcceptedLetters(b);
    assert forall c :: c in DECISIVE ==> (c in Letters(a) <==> c in Letters(a) * DECISIVE);
    assert forall c :: c in DECISIVE ==> (c in Letters(b) <==> c in Letters(b) * DECISIVE);
  }

  /** In particular, not on the order. */
  lemma AcceptanceIgnoresOrder(a: seq<Opt>, b: seq<Opt>)
    requires multiset(a) == multiset(b)
    ensures Accepted(a) <==> Accepted(b)
  {
    assert forall o :: o in a <==> o in multiset(a);
    assert forall o :: o in b <==> o in multiset(b);
    assert Letters(a) == Letters(b);
    AcceptanceByOccurrence(a, b);
  }

  /** The loop of main comes to the same end on both lists. */
  method ParseBoth(a: seq<Opt>, b: seq<Opt>) returns (ra: Option<Options>, rb: Option<Options>)
    ensures Letters(a) * DECISIVE == Letters(b) * DECISIVE ==> (ra.Some? <==> rb.Some?)
    ensures multiset(a) == multiset(b) ==> (ra.Some? <==> rb.Some?)
  {
    ra := ParseOptions(a);
    rb := ParseOptions(b);
    if Letters(a) * DECISIVE == Letters(b) * DECISIVE {
      AcceptanceByOccurrence(a, b);
    }
    if multiset(a) == multiset(b) {
      AcceptanceIgnoresOrder(a, b);
    }
  }

  // ----- the files the parent writes -----

  /** /proc/<pid>/uid_map, /proc/<pid>/setgroups and /proc/<pid>/gid_map. */
  datatype ProcFile = UidMapFile | SetGroupsFile | GidMapFile

  datatype FileWrite = FileWrite(file: ProcFile, pid: nat, text: string)

  const MAP_BUF_SIZE: nat := 100

  /** "0 <id> 1" in map_buf. */
  function ZeroMap(id: nat): string { Clip("0 " + Decimal(id) + " 1", MAP_BUF_SIZE) }

  /** The map string of one kind of ids: map_buf with -z, else the argument of the option, if any. */
  function MapText(zero: bool, arg: Option<string>, id: nat): Option<string> {
    if zero then Some(ZeroMap(id)) else arg
  }

  function UidWrites(o: Options, uid: nat, pid: nat): seq<FileWrite> {
    match MapText(o.mapZero, o.uidMap, uid)
    case None => []
    case Some(text) => [FileWrite(UidMapFile, pid, Replace(text, ',', '\n'))]
  }

  function GidWrites(o: Options, gid: nat, pid: nat): seq<FileWrite> {
    match MapText(o.mapZero, o.gidMap, gid)
    case None => []
    case Some(text) =>
      [FileWrite(SetGroupsFile, pid, "deny"), FileWrite(GidMapFile, pid, Replace(text, ',', '\n'))]
  }

  /** What main writes for the child `pid`, in order, when every write succeeds. */
  function Writes(o: Options, uid: nat, gid: nat, pid: nat): seq<FileWrite> {
    UidWrites(o, uid, pid) + GidWrites(o, gid, pid)
  }

  /** A 32-bit id is written whole in map_buf. */
  lemma ZeroMapWhole(id: nat)
    requires id < 0x1_0000_0000
    ensures ZeroMap(id) == "0 " + Decimal(id) + " 1"
  {
    assert Pow10(10) == 10_000_000_000 by {
      assert Pow10(4) == 10_000;
      assert Pow10(7) == 10_000_000;
    }
    DecimalLength(id, 10);
  }

  /** What -z writes is one record. */
  lemma ZeroMapIsOneRecord(id: nat)
    requires id < 0x1_0000_0000
    ensures '\n' !in ZeroMap(id)
    ensures Split(ZeroMap(id), ',') == ["0 " + Decimal(id) + " 1"]
  {
    ZeroMapWhole(id);
    SplitNone(ZeroMap(id), ',');
  }

  /** -z is what the usage text says it is: the same writes, in the same order, as
      -M '0 <uid> 1' -G '0 <gid> 1', wherever the options stand. */
  lemma MapZeroIsTwoMaps(z: seq<Opt>, mg: seq<Opt>, uid: nat, gid: nat, pid: nat)
    requires uid < 0x1_0000_0000 && gid < 0x1_0000_0000
    requires Accepted(z) && MapZero in z
    requires Accepted(mg)
    requires Fold(mg).uidMap == Some("0 " + Decimal(uid) + " 1")
    requires Fold(mg).gidMap == Some("0 " + Decimal(gid) + " 1")
    ensures Writes(Fold(z), uid, gid, pid) == Writes(Fold(mg), uid, gid, pid)
    ensures |Writes(Fold(z), uid, gid, pid)| == 3
  {
    FoldOccurrences(z);
    FoldOccurrences(mg);
    ZeroMapWhole(uid);
    ZeroMapWhole(gid);
  }
}
