/**
 * Partitions from /proc/<pid>/mountinfo. Device names are tracked by block device id so that later
 * mounts of a device show the name first seen for it; bind mounts are dropped unless all are wanted.
 */
module Mountinfo {
  import opened Text

  /* ---- read-only and read-write ---- */

  function EffectiveReadWriteMode(mountOpts: seq<string>, superOpts: seq<string>): string {
    if "ro" in mountOpts || "ro" in superOpts then "ro"
    else if "rw" in mountOpts && "rw" in superOpts then "rw"
    else ""
  }

  predicate IsMode(opt: string) { opt == "ro" || opt == "rw" }

  /** The options other than ro and rw, in order. */
  function OtherOpts(opts: seq<string>): seq<string> {
    if opts == [] then []
    else OtherOpts(opts[..|opts| - 1]) + if IsMode(opts[|opts| - 1]) then [] else [opts[|opts| - 1]]
  }

  function Modes(opts: seq<string>): seq<string> {
    if opts == [] then []
    else Modes(opts[..|opts| - 1]) + if IsMode(opts[|opts| - 1]) then [opts[|opts| - 1]] else []
  }

  lemma OptsConcat(a: seq<string>, b: seq<string>)
    ensures OtherOpts(a + b) == OtherOpts(a) + OtherOpts(b) && Modes(a + b) == Modes(a) + Modes(b)
  {
    OtherOptsConcat(a, b);
    ModesConcat(a, b);
  }

  lemma {:induction false} OtherOptsConcat(a: seq<string>, b: seq<string>)
    ensures OtherOpts(a + b) == OtherOpts(a) + OtherOpts(b)
  {
    if b == [] {
      assert a + b == a;
    } else {
      hide IsMode;
      var n := |b| - 1;
      assert (a + b)[..|a| + n] == a + b[..n] && (a + b)[|a| + n] == b[n];
      OtherOptsConcat(a, b[..n]);
    }
  }

  lemma {:induction false} ModesConcat(a: seq<string>, b: seq<string>)
    ensures Modes(a + b) == Modes(a) + Modes(b)
  {
    if b == [] {
      assert a + b == a;
    } else {
      hide IsMode;
      var n := |b| - 1;
      assert (a + b)[..|a| + n] == a + b[..n] && (a + b)[|a| + n] == b[n];
      ModesConcat(a, b[..n]);
    }
  }

  method EffectiveMountOpts(mountOpts: seq<string>, superOpts: seq<string>) returns (updated: seq<string>)
    ensures updated == EffectiveOpts(mountOpts, superOpts)
  {
    var mode := EffectiveReadWriteMode(mountOpts, superOpts);
    if mode == "" {
      return mountOpts;
    }
    updated := [];
    var modeSet := false;
    for i := 0 to |mountOpts|
      invariant updated == Replaced(mountOpts[..i], mode)
      invariant modeSet <==> Modes(mountOpts[..i]) != []
    {
      var opt := mountOpts[i];
      assert mountOpts[..i + 1][..i] == mountOpts[..i] && mountOpts[..i + 1][i] == opt;
      if opt == "ro" || opt == "rw" {
        if !modeSet {
          updated := updated + [mode];
          modeSet := true;
        }
      } else {
        updated := updated + [opt];
      }
    }
    assert mountOpts[..|mountOpts|] == mountOpts;
    if !modeSet {
      updated := [mode] + updated;
    }
  }

  lemma {:induction false} ReplacedParts(opts: seq<string>, mode: string)
    requires IsMode(mode)
    ensures OtherOpts(Replaced(opts, mode)) == OtherOpts(opts)
    ensures Modes(Replaced(opts, mode)) == if Modes(opts) == [] then [] else [mode]
  {
    if opts != [] {
      var n := |opts| - 1;
      ReplacedParts(opts[..n], mode);
      OptsConcat(Replaced(opts[..n], mode), [opts[n]]);
      OptsConcat(Replaced(opts[..n], mode), [mode]);
      OneOpt(opts[n]);
      OneOpt(mode);
      var r := Replaced(opts[..n], mode);
      assert Replaced(opts, mode) == if !IsMode(opts[n]) then r + [opts[n]] else if Modes(opts[..n]) == [] then r + [mode] else r;
      assert OtherOpts(r) + [] == OtherOpts(r);
    }
  }

  /** Exactly one mode, the effective one, stands among the other options, which keep their order. */
  lemma OneEffectiveMode(mountOpts: seq<string>, superOpts: seq<string>)
    ensures var mode, opts := EffectiveReadWriteMode(mountOpts, superOpts), EffectiveOpts(mountOpts, superOpts);
            && OtherOpts(opts) == OtherOpts(mountOpts)
            && (if mode == "" then opts == mountOpts else Modes(opts) == [mode])
  {
    var mode := EffectiveReadWriteMode(mountOpts, superOpts);
    if mode != "" {
      var r := Replaced(mountOpts, mode);
      ReplacedParts(mountOpts, mode);
      if Modes(mountOpts) == [] {
        OptsConcat([mode], r);
        OneOpt(mode);
        assert EffectiveOpts(mountOpts, superOpts) == [mode] + r;
        assert [] + OtherOpts(r) == OtherOpts(r);
      } else {
        assert EffectiveOpts(mountOpts, superOpts) == r;
      }
    }
  }

  lemma KeptAsItIs(opts: seq<string>, mode: string)
    requires opts != [] && !IsMode(opts[|opts| - 1])
    ensures Replaced(opts, mode) == Replaced(opts[..|opts| - 1], mode) + [opts[|opts| - 1]]
  {
    hide IsMode, Modes;
  }

  lemma {:induction false} NothingReplaced(opts: seq<string>, mode: string)
    requires forall j :: 0 <= j < |opts| ==> !IsMode(opts[j])
    ensures Replaced(opts, mode) == opts
  {
    hide IsMode;
    if opts != [] {
      hide Replaced;
      var n := |opts| - 1;
      NothingReplaced(opts[..n], mode);
      KeptAsItIs(opts, mode);
      assert opts[..n] + [opts[n]] == opts;
    }
  }

  lemma {:induction false} ReplacedStart(opts: seq<string>, mode: string, i: nat)
    requires i < |opts| && IsMode(opts[i]) && forall j :: 0 <= j < i ==> !IsMode(opts[j])
    ensures |Replaced(opts, mode)| > i && Replaced(opts, mode)[..i] == opts[..i] && Replaced(opts, mode)[i] == mode
    decreases |opts|
  {
    hide IsMode, Modes;
    var n := |opts| - 1;
    if i < n {
      ReplacedStart(opts[..n], mode, i);
      assert opts[..n][..i] == opts[..i];
    } else {
      NothingReplaced(opts[..n], mode);
      NoModes(opts[..n]);
    }
  }

  lemma {:induction false} NoModes(opts: seq<string>)
    requires forall j :: 0 <= j < |opts| ==> !IsMode(opts[j])
    ensures Modes(opts) == []
  {
    if opts != [] {
      NoModes(opts[..|opts| - 1]);
    }
  }

  /** The effective mode stands where the first mode option stood, or in front if there was none. */
  lemma ModeInPlace(mountOpts: seq<string>, superOpts: seq<string>, i: nat)
    requires EffectiveReadWriteMode(mountOpts, superOpts) != ""
    requires i <= |mountOpts| && (i < |mountOpts| ==> IsMode(mountOpts[i])) && forall j :: 0 <= j < i ==> !IsMode(mountOpts[j])
    ensures var mode, opts := EffectiveReadWriteMode(mountOpts, superOpts), EffectiveOpts(mountOpts, superOpts);
            if i == |mountOpts| then opts == [mode] + mountOpts
            else |opts| > i && opts[..i] == mountOpts[..i] && opts[i] == mode
  {
    hide IsMode, Replaced, Modes, EffectiveReadWriteMode;
    var mode := EffectiveReadWriteMode(mountOpts, superOpts);
    var r := Replaced(mountOpts, mode);
    if i == |mountOpts| {
      NothingReplaced(mountOpts, mode);
      NoModes(mountOpts);
    } else {
      ReplacedStart(mountOpts, mode, i);
      ModeMembers(mountOpts, mountOpts[i]);
      assert mountOpts[i] in mountOpts;
      assert [] + r == r;
    }
  }

  /** A mount is shown writable exactly when its own options say so and neither option set is read-only. */
  lemma WritableExactly(mountOpts: seq<string>, superOpts: seq<string>)
    ensures "rw" in EffectiveOpts(mountOpts, superOpts) <==>
            "rw" in mountOpts && "ro" !in mountOpts && "ro" !in superOpts
  {
    OneEffectiveMode(mountOpts, superOpts);
    ModeMembers(EffectiveOpts(mountOpts, superOpts), "rw");
  }

  /** A mount is shown read-only exactly when one of the option sets is. */
  lemma ReadOnlyExactly(mountOpts: seq<string>, superOpts: seq<string>)
    ensures "ro" in EffectiveOpts(mountOpts, superOpts) <==> "ro" in mountOpts || "ro" in superOpts
  {
    OneEffectiveMode(mountOpts, superOpts);
    ModeMembers(EffectiveOpts(mountOpts, superOpts), "ro");
  }

  /** Shown writable exactly when both option sets are read-write and neither is read-only. */
  predicate WritableOnlyIfBoth(mountOpts: seq<string>, superOpts: seq<string>) {
    "rw" in EffectiveOpts(mountOpts, superOpts) <==>
    "rw" in mountOpts && "rw" in superOpts && "ro" !in mountOpts && "ro" !in superOpts
  }

  /** That rule fails exactly for a writable mount whose superblock options hold no mode at all. */
  lemma WritableNeedsBothExactly(mountOpts: seq<string>, superOpts: seq<string>)
    ensures WritableOnlyIfBoth(mountOpts, superOpts) <==>
            !("rw" in mountOpts && "ro" !in mountOpts && "rw" !in superOpts && "ro" !in superOpts)
  {
    WritableExactly(mountOpts, superOpts);
  }

  /** For example a line without superblock options, which the parser accepts. */
  lemma WritableWithoutSuperblock()
    ensures "rw" in EffectiveOpts(["rw", "noatime"], []) && !WritableOnlyIfBoth(["rw", "noatime"], [])
  {
    assert ["rw", "noatime"][0] == "rw" && ["rw", "noatime"][1] == "noatime";
    WritableExactly(["rw", "noatime"], []);
  }

  lemma {:induction false} ModeMembers(opts: seq<string>, mode: string)
    requires IsMode(mode)
    ensures mode in opts <==> mode in Modes(opts)
  {
    if opts != [] {
      var n := |opts| - 1;
      ModeMembers(opts[..n], mode);
      assert opts == opts[..n] + [opts[n]];
    }
  }

  lemma OneOpt(opt: string)
    ensures OtherOpts([opt]) == (if IsMode(opt) then [] else [opt]) && Modes([opt]) == (if IsMode(opt) then [opt] else [])
  {
    assert [opt][..0] == [];
  }

  /** The first mode option replaced by `mode`, later ones dropped. */
  function Replaced(opts: seq<string>, mode: string): seq<string> {
    if opts == [] then []
    else
      var n := |opts| - 1;
      Replaced(opts[..n], mode)
      + if !IsMode(opts[n]) then [opts[n]] else if Modes(opts[..n]) == [] then [mode] else []
  }

  function EffectiveOpts(mountOpts: seq<string>, superOpts: seq<string>): seq<string> {
    var mode := EffectiveReadWriteMode(mountOpts, superOpts);
    if mode == "" then mountOpts
    else (if Modes(mountOpts) == [] then [mode] else []) + Replaced(mountOpts, mode)
  }

  /* ---- one line ---- */

  datatype Mount = Mount(deviceId: string, rootDir: string, mountPoint: string, opts: seq<string>,
                         fsType: string, source: string, superOpts: seq<string>)

  datatype LineError = BadParts | BadFieldsBefore | BadFieldsAfter

  datatype Line = Good(mount: Mount) | Bad(error: LineError)

  function ReadLine(line: string): Line {
    var cut := Find(line, SEPARATOR);
    if cut.None? then Bad(BadParts)
    else
      var a, b := Fields(line[..cut.value]), Fields(line[cut.value + 3..]);
      FromFields(a, b)
  }

  function FromFields(a: seq<string>, b: seq<string>): Line {
    if |a| < 5 then Bad(BadFieldsBefore)
    else if |b| < 2 then Bad(BadFieldsAfter)
    else
      var mountOpts := if |a| >= 6 then SplitOn(a[5], ',') else [];
      var superOpts := if |b| >= 3 then SplitOn(b[2], ',') else [];
      Good(Mount(a[2], a[3], a[4], mountOpts, b[0], b[1], superOpts))
  }

  /* ---- a line is read back ---- */

  const SEPARATOR := " - "

  lemma {:induction false} FindBehindSolid(x: string, y: string)
    requires ' ' !in x
    ensures Find(x + y, SEPARATOR) == var r := Find(y, SEPARATOR); if r.Some? then Some(|x| + r.value) else None
  {
    if x == "" {
      assert x + y == y;
    } else {
      FindBehindSolid(x[1..], y);
      PrefixAt(x + y, SEPARATOR, 0);
      FindNext(x + y, SEPARATOR);
      assert (x + y)[1..] == x[1..] + y;
    }
  }

  predicate IsField(f: string) {
    f != "" && f != "-" && Solid(f, IsSpace)
  }

  lemma NotADash(f: string, rest: string)
    requires IsField(f)
    ensures !HasPrefix(" " + (f + " " + rest), SEPARATOR)
  {
    var s := " " + (f + " " + rest);
    PrefixAt(s, SEPARATOR, 1);
    PrefixAt(s, SEPARATOR, 2);
    if |f| == 1 {
      assert s[1] == f[0] && f == [f[0]];
    } else {
      assert s[2] == f[1] && !IsSpace(f[1]);
    }
  }

  lemma NoSpaceInField(f: string)
    requires IsField(f)
    ensures ' ' !in f
  {
  }

  /** The separator is the first field that is a lone hyphen. */
  lemma {:induction false} FindSeparator(fields: seq<string>, rest: string)
    requires fields != [] && forall i :: 0 <= i < |fields| ==> IsField(fields[i])
    ensures Find(Terminated(fields, ' ') + "- " + rest, SEPARATOR) == Some(|Terminated(fields, ' ')| - 1)
    decreases |fields|
  {
    hide Find, HasPrefix, IsField;
    var f := fields[0];
    var tail := Terminated(fields[1..], ' ') + "- " + rest;
    assert Terminated(fields, ' ') + "- " + rest == f + (" " + tail);
    NoSpaceInField(f);
    FindBehindSolid(f, " " + tail);
    assert (" " + tail)[1..] == tail;
    if fields[1..] == [] {
      assert tail == "- " + rest;
      StartsWithSeparator(rest);
    } else {
      var behind := Terminated(fields[1..][1..], ' ') + "- " + rest;
      assert tail == fields[1] + " " + behind;
      NotADash(fields[1], behind);
      FindSeparator(fields[1..], rest);
      FindNext(" " + tail, SEPARATOR);
    }
  }

  lemma StartsWithSeparator(rest: string)
    ensures Find(" " + ("- " + rest), SEPARATOR) == Some(0)
  {
    var s := " " + ("- " + rest);
    assert s[..3] == SEPARATOR;
  }

  /** The strings that are not empty, in order. */
  function NonEmpty(words: seq<string>): seq<string> {
    if words == [] then []
    else (if words[0] == "" then [] else [words[0]]) + NonEmpty(words[1..])
  }

  /** Columns joined by single blanks are read back without the empty ones. */
  lemma {:induction false} FieldsOfSparse(words: seq<string>, last: string)
    requires forall i :: 0 <= i < |words| ==> Solid(words[i], IsSpace)
    requires Solid(last, IsSpace)
    ensures FieldsBy(Terminated(words, ' ') + last, IsSpace) == NonEmpty(words + [last])
  {
    hide FieldsBy, Solid;
    if words == [] {
      assert Terminated(words, ' ') + last == last && [] + [last] == [last];
      FieldsOfOne(last);
      assert [last][1..] == [];
    } else {
      var rest := Terminated(words[1..], ' ') + last;
      FieldsOfSparse(words[1..], last);
      FieldsBehindSpace(' ', rest, IsSpace);
      assert Terminated(words, ' ') + last == words[0] + ([' '] + rest);
      assert (words + [last])[1..] == words[1..] + [last];
      if words[0] == "" {
        assert words[0] + ([' '] + rest) == [' '] + rest;
        assert [] + NonEmpty(words[1..] + [last]) == NonEmpty(words[1..] + [last]);
      } else {
        FieldsHead(words[0], [' '] + rest, IsSpace);
      }
    }
  }

  lemma FieldsOfOne(word: string)
    requires Solid(word, IsSpace)
    ensures FieldsBy(word, IsSpace) == if word == "" then [] else [word]
  {
    if word != "" {
      FieldsHead(word, "", IsSpace);
      assert word + "" == word;
    }
  }

  /**
   * Any line whose fields before the separator are proper: they end up in their places, however many
   * optional fields there are, and behind the separator empty fields are passed over.
   */
  lemma LineReadBack(a: seq<string>, b: seq<string>)
    requires a != [] && forall i :: 0 <= i < |a| ==> IsField(a[i])
    requires b != [] && forall i :: 0 <= i < |b| ==> Solid(b[i], IsSpace)
    ensures var r, line := NonEmpty(b), ReadLine(Terminated(a, ' ') + "- " + (Terminated(b[..|b| - 1], ' ') + b[|b| - 1]));
            line ==
              if |a| < 5 then Bad(BadFieldsBefore)
              else if |r| < 2 then Bad(BadFieldsAfter)
              else Good(Mount(a[2], a[3], a[4], if |a| == 5 then [] else SplitOn(a[5], ','),
                              r[0], r[1], if |r| == 2 then [] else SplitOn(r[2], ',')))
  {
    hide Find, FieldsBy, SplitOn, Terminated, IsField, ReadLine, Solid, NonEmpty;
    var n, m := |a| - 1, |b| - 1;
    var rest := Terminated(b[..m], ' ') + b[m];
    CutAtSeparator(a, rest);
    FieldsArePlain(a);
    FieldsOfJoined(a[..n], a[n], ' ', IsSpace);
    FieldsOfSparse(b[..m], b[m]);
    assert a[..n] + [a[n]] == a && b[..m] + [b[m]] == b;
  }

  /** A line without a lone hyphen between blanks is refused as a whole. */
  lemma NoSeparator(line: string)
    requires !Contains(line, " - ")
    ensures ReadLine(line) == Bad(BadParts)
  {
  }

  /** Filesystem type, source and superblock options, as the kernel writes them behind the separator. */
  function LineOf(a: seq<string>, fsType: string, source: string, superOpts: string): string {
    Terminated(a, ' ') + "- " + (Terminated([fsType, source], ' ') + superOpts)
  }

  /**
   * Every part of a line is read back if and only if its source is not empty; with an empty source the
   * superblock options are taken for the source, and none are left.
   */
  lemma SourceReadBack(a: seq<string>, fsType: string, source: string, superOpts: string)
    requires |a| >= 6 && forall i :: 0 <= i < |a| ==> IsField(a[i])
    requires IsWord(fsType) && IsWord(superOpts) && Solid(source, IsSpace)
    ensures var m := Mount(a[2], a[3], a[4], SplitOn(a[5], ','), fsType, source, SplitOn(superOpts, ','));
            && ReadLine(LineOf(a, fsType, source, superOpts)) ==
                 Good(if source != "" then m else m.(source := superOpts, superOpts := []))
            && (ReadLine(LineOf(a, fsType, source, superOpts)) == Good(m) <==> source != "")
  {
    hide ReadLine, SplitOn, Terminated, IsField, Solid;
    var b := [fsType, source, superOpts];
    assert b[..2] == [fsType, source];
    LineReadBack(a, b);
    NonEmptyThree(fsType, source, superOpts);
  }

  lemma NonEmptyThree(x: string, y: string, z: string)
    requires x != "" && z != ""
    ensures NonEmpty([x, y, z]) == if y == "" then [x, z] else [x, y, z]
  {
    assert [x, y, z][1..] == [y, z] && [y, z][1..] == [z] && [z][1..] == [];
    assert NonEmpty([z]) == [z];
    assert NonEmpty([y, z]) == if y == "" then [z] else [y, z];
  }

  /** A line with proper fields is cut behind them. */
  lemma CutAtSeparator(a: seq<string>, rest: string)
    requires a != [] && forall i :: 0 <= i < |a| ==> IsField(a[i])
    ensures ReadLine(Terminated(a, ' ') + "- " + rest)
         == FromFields(Fields(Terminated(a[..|a| - 1], ' ') + a[|a| - 1]), Fields(rest))
  {
    hide Find, IsField, Fields, FromFields, Terminated;
    FindSeparator(a, rest);
    JoinedFront(a);
    SlicesAround(Terminated(a[..|a| - 1], ' ') + a[|a| - 1], rest);
  }

  lemma SlicesAround(front: string, rest: string)
    ensures var line := front + " " + "- " + rest; line[..|front|] == front && line[|front| + 3..] == rest
  {
  }

  lemma FieldsArePlain(a: seq<string>)
    requires forall i :: 0 <= i < |a| ==> IsField(a[i])
    ensures forall i :: 0 <= i < |a| ==> a[i] != "" && Solid(a[i], IsSpace)
  {
  }

  lemma {:induction false} JoinedFront(a: seq<string>)
    requires a != []
    ensures Terminated(a, ' ') == Terminated(a[..|a| - 1], ' ') + a[|a| - 1] + " "
  {
    if |a| > 1 {
      JoinedFront(a[1..]);
      assert a[..|a| - 1][0] == a[0] && a[..|a| - 1][1..] == a[1..][..|a| - 2];
    }
  }

  /* ---- rows ---- */

  datatype Partition = Partition(device: string, mountpoint: string, fstype: string, opts: seq<string>)

  /** The host's part: resolving device links and undoing octal escapes. */
  datatype Host = Host(resolve: (string, string) -> string, unescape: string -> string)

  /** A partition, with what decides whether it is shown when not all are wanted. */
  datatype Row = Row(partition: Partition, bind: bool)

  const SUBVOL := "subvol="

  /** Option `i` is the first that starts with subvol=. */
  predicate FirstSubvol(superOpts: seq<string>, i: nat)
    requires i < |superOpts|
  {
    HasPrefix(superOpts[i], SUBVOL) && forall j :: 0 <= j < i ==> !HasPrefix(superOpts[j], SUBVOL)
  }

  /** Whether the first subvol= option names the root directory of the mount. */
  predicate IsSubvol(superOpts: seq<string>, rootDir: string) {
    exists i :: 0 <= i < |superOpts| && FirstSubvol(superOpts, i) && superOpts[i] == SUBVOL + rootDir
  }

  predicate IsBind(m: Mount) {
    HasPrefix(m.source, "/") && m.rootDir != "/" && !IsSubvol(m.superOpts, m.rootDir)
  }

  function OwnDevice(m: Mount): string {
    if HasPrefix(m.source, "/") || m.rootDir == "/" then m.source else m.rootDir
  }

  type Seen = map<string, string>

  function DeviceOf(seen: Seen, m: Mount): string {
    if m.deviceId in seen then seen[m.deviceId] else OwnDevice(m)
  }

  function Remember(seen: Seen, m: Mount): Seen {
    if m.deviceId in seen then seen else seen[m.deviceId := OwnDevice(m)]
  }

  function RowOf(h: Host, seen: Seen, m: Mount): Row {
    var opts := EffectiveOpts(m.opts, m.superOpts) + if IsBind(m) then ["bind"] else [];
    Row(Partition(h.resolve(DeviceOf(seen, m), m.deviceId), h.unescape(m.mountPoint), m.fsType, opts), IsBind(m))
  }

  datatype State = State(seen: Seen, rows: seq<Row>)

  function Take(h: Host, listed: Mount -> bool, all: bool, s: State, m: Mount): State {
    if !all && !listed(m) then s
    else State(Remember(s.seen, m), if !all && IsBind(m) then s.rows else s.rows + [RowOf(h, s.seen, m)])
  }

  /** The state after the mounts of a file, all of them well formed. */
  function TakeAll(h: Host, listed: Mount -> bool, all: bool, ms: seq<Mount>): State {
    if ms == [] then State(map[], [])
    else Take(h, listed, all, TakeAll(h, listed, all, ms[..|ms| - 1]), ms[|ms| - 1])
  }

  /** The mounts of a file, or the error of its first bad line. */
  datatype File = Mounts(mounts: seq<Mount>) | Broken(error: LineError)

  function ReadFile(lines: seq<string>): File {
    if lines == [] then Mounts([])
    else
      match ReadFile(lines[..|lines| - 1])
      case Broken(e) => Broken(e)
      case Mounts(ms) =>
        match ReadLine(lines[|lines| - 1])
        case Bad(e) => Broken(e)
        case Good(m) => Mounts(ms + [m])
  }

  function Listed(fs: seq<string>): Mount -> bool {
    (m: Mount) => StringsHas(fs, m.fsType)
  }

  function Partitions(rows: seq<Row>): (r: seq<Partition>)
    ensures |r| == |rows| && forall i :: 0 <= i < |r| ==> r[i] == rows[i].partition
  {
    seq(|rows|, i requires 0 <= i < |rows| => rows[i].partition)
  }

  lemma {:induction false} BrokenStays(lines: seq<string>, i: nat)
    requires i <= |lines| && ReadFile(lines[..i]).Broken?
    ensures ReadFile(lines) == ReadFile(lines[..i])
    decreases |lines|
  {
    if i == |lines| {
      assert lines[..i] == lines;
    } else {
      assert lines[..|lines| - 1][..i] == lines[..i];
      BrokenStays(lines[..|lines| - 1], i);
    }
  }

  lemma {:induction false} LineRead(lines: seq<string>, i: nat)
    requires ReadFile(lines).Mounts? && i < |lines|
    ensures |ReadFile(lines).mounts| == |lines| && ReadLine(lines[i]) == Good(ReadFile(lines).mounts[i])
    decreases |lines|
  {
    hide ReadLine;
    var n := |lines| - 1;
    if n > 0 {
      LineRead(lines[..n], if i < n then i else 0);
    }
  }

  lemma {:induction false} GoodLinesRead(lines: seq<string>)
    requires forall i :: 0 <= i < |lines| ==> ReadLine(lines[i]).Good?
    ensures ReadFile(lines).Mounts?
  {
    if lines != [] {
      hide ReadLine;
      GoodLinesRead(lines[..|lines| - 1]);
    }
  }

  /** A file is read as a whole exactly when every line is, each mount from its own line. */
  lemma AllLinesRead(lines: seq<string>)
    ensures ReadFile(lines).Mounts? <==> forall i :: 0 <= i < |lines| ==> ReadLine(lines[i]).Good?
    ensures ReadFile(lines).Mounts? ==>
              && |ReadFile(lines).mounts| == |lines|
              && forall i :: 0 <= i < |lines| ==> ReadLine(lines[i]) == Good(ReadFile(lines).mounts[i])
  {
    if forall i :: 0 <= i < |lines| ==> ReadLine(lines[i]).Good? {
      GoodLinesRead(lines);
    }
    if ReadFile(lines).Mounts? && lines != [] {
      LineRead(lines, 0);
      hide ReadLine, ReadFile;
      forall i | 0 <= i < |lines| ensures ReadLine(lines[i]) == Good(ReadFile(lines).mounts[i]) {
        LineRead(lines, i);
      }
    }
  }

  /** Otherwise the error is that of its first bad line. */
  lemma FirstBadLine(lines: seq<string>, i: nat)
    requires i < |lines| && ReadLine(lines[i]).Bad? && forall j :: 0 <= j < i ==> ReadLine(lines[j]).Good?
    ensures ReadFile(lines) == Broken(ReadLine(lines[i]).error)
  {
    hide ReadLine;
    AllLinesRead(lines[..i]);
    assert lines[..i + 1][..i] == lines[..i] && lines[..i + 1][i] == lines[i];
    BrokenStays(lines, i + 1);
  }

  /** The loop over the lines, with the first-seen device map it carries. */
  method ParseFieldsOnMountinfo(h: Host, lines: seq<string>, all: bool, fs: seq<string>)
    returns (ret: seq<Partition>, err: Option<LineError>)
    ensures ReadFile(lines).Broken? ==> err == Some(ReadFile(lines).error)
    ensures ReadFile(lines).Mounts? ==>
              err == None && ret == Partitions(TakeAll(h, Listed(fs), all, ReadFile(lines).mounts).rows)
  {
    hide TakeAll, Take, ReadLine;
    NothingTaken(h, Listed(fs), all);
    ret := [];
    var seenDevIDs: Seen := map[];
    ghost var ms: seq<Mount> := [];
    for i := 0 to |lines|
      invariant ReadFile(lines[..i]) == Mounts(ms)
      invariant TakeAll(h, Listed(fs), all, ms).seen == seenDevIDs
      invariant ret == Partitions(TakeAll(h, Listed(fs), all, ms).rows)
    {
      assert lines[..i + 1][..i] == lines[..i] && lines[..i + 1][i] == lines[i];
      var line := ReadLine(lines[i]);
      if line.Bad? {
        BrokenStays(lines, i + 1);
        return [], Some(line.error);
      }
      ghost var before := TakeAll(h, Listed(fs), all, ms);
      TakeOneMore(h, Listed(fs), all, ms, line.mount);
      ms := ms + [line.mount];
      var row;
      seenDevIDs, row := TakeMount(h, seenDevIDs, line.mount, all, fs, before);
      if row.Some? {
        ret := ret + [row.value];
      }
    }
    assert lines[..|lines|] == lines;
    err := None;
  }

  lemma NothingTaken(h: Host, listed: Mount -> bool, all: bool)
    ensures TakeAll(h, listed, all, []) == State(map[], [])
  {
  }

  lemma TakeOneMore(h: Host, listed: Mount -> bool, all: bool, ms: seq<Mount>, m: Mount)
    ensures TakeAll(h, listed, all, ms + [m]) == Take(h, listed, all, TakeAll(h, listed, all, ms), m)
  {
    hide Take;
    assert (ms + [m])[..|ms|] == ms;
  }

  method FindSubvol(superOpts: seq<string>, rootDir: string) returns (isSubvol: bool)
    ensures isSubvol <==>
            exists i :: 0 <= i < |superOpts| && FirstSubvol(superOpts, i) && superOpts[i] == SUBVOL + rootDir
  {
    for i := 0 to |superOpts|
      invariant forall j :: 0 <= j < i ==> !HasPrefix(superOpts[j], SUBVOL)
    {
      var o := superOpts[i];
      if HasPrefix(o, SUBVOL) {
        var v := o[|SUBVOL|..];
        assert o == SUBVOL + v;
        assert rootDir != v ==> o[|SUBVOL|..] != (SUBVOL + rootDir)[|SUBVOL|..];
        assert FirstSubvol(superOpts, i);
        return rootDir == v;
      }
    }
    return false;
  }

  /** The part of the loop body behind the parsing of the line. */
  method TakeMount(h: Host, seen: Seen, m: Mount, all: bool, fs: seq<string>, ghost before: State)
    returns (seen': Seen, row: Option<Partition>)
    requires before.seen == seen
    ensures var after := Take(h, Listed(fs), all, before, m);
            seen' == after.seen && Partitions(after.rows) == Partitions(before.rows) + if row.Some? then [row.value] else []
  {
    assert Partitions(before.rows) + [] == Partitions(before.rows);
    var mountOpts := EffectiveMountOpts(m.opts, m.superOpts);
    var isBind := false;
    if !all && !StringsHas(fs, m.fsType) {
      return seen, None;
    }
    var device := m.rootDir;
    if HasPrefix(m.source, "/") {
      device := m.source;
    } else if m.rootDir == "/" {
      device := m.source;
    }
    if m.deviceId in seen {
      device := seen[m.deviceId];
    }
    var isSubvol := FindSubvol(m.superOpts, m.rootDir);
    if HasPrefix(m.source, "/") && m.rootDir != "/" && !isSubvol {
      isBind := true;
      mountOpts := mountOpts + ["bind"];
    }
    seen' := seen;
    if m.deviceId !in seen {
      seen' := seen[m.deviceId := device];
    }
    if !all && isBind {
      return seen', None;
    }
    row := Some(Partition(h.resolve(device, m.deviceId), h.unescape(m.mountPoint), m.fsType, mountOpts));
    assert row.value == RowOf(h, seen, m).partition;
    assert Partitions(before.rows + [RowOf(h, seen, m)]) == Partitions(before.rows) + [row.value];
  }

  /* ---- what asking for less leaves out ---- */

  /** A directory of a filesystem on a device, mounted elsewhere: not its root, and not the subvolume it was mounted as. */
  predicate IsSubdirectory(m: Mount) {
    && m.source != "" && m.source[0] == '/' && m.rootDir != "/"
    && !exists i :: 0 <= i < |m.superOpts| && FirstSubvol(m.superOpts, i) && m.superOpts[i] == SUBVOL + m.rootDir
  }

  /** The name a mount gives its device: its source if that is a path or the mount is a root, otherwise the root. */
  function NameGiven(m: Mount): string {
    if (m.source != "" && m.source[0] == '/') || m.rootDir == "/" then m.source else m.rootDir
  }

  lemma StartsWithSlash(s: string)
    ensures HasPrefix(s, "/") <==> s != "" && s[0] == '/'
  {
    if s != "" {
      assert s[..1] == [s[0]];
    }
  }

  lemma BindAndName(m: Mount)
    ensures IsBind(m) <==> IsSubdirectory(m)
    ensures OwnDevice(m) == NameGiven(m)
  {
    StartsWithSlash(m.source);
  }

  /**
   * What each mount adds, from its fields and those of the first mount of its device that is considered:
   * nothing if it is not listed, or is a subdirectory, and not all are wanted; otherwise one row with the
   * device under the name first given, its own mount point, type and options, and "bind" behind these
   * exactly if it is a subdirectory.
   */
  lemma RowShown(h: Host, listed: Mount -> bool, all: bool, ms: seq<Mount>, i: nat, k: nat)
    requires i < |ms| && k <= i && ms[k].deviceId == ms[i].deviceId
    requires (all || listed(ms[i])) ==> (all || listed(ms[k]))
    requires forall j :: 0 <= j < k && ms[j].deviceId == ms[k].deviceId ==> !all && !listed(ms[j])
    ensures var before, after := Partitions(TakeAll(h, listed, all, ms[..i]).rows), Partitions(TakeAll(h, listed, all, ms[..i + 1]).rows);
            var m, sub := ms[i], IsSubdirectory(ms[i]);
            after == before +
              if !all && (!listed(m) || sub) then []
              else [Partition(h.resolve(NameGiven(ms[k]), m.deviceId), h.unescape(m.mountPoint), m.fsType,
                              EffectiveOpts(m.opts, m.superOpts) + if sub then ["bind"] else [])]
  {
    var m, s := ms[i], TakeAll(h, listed, all, ms[..i]);
    assert ms[..i + 1][..i] == ms[..i] && ms[..i + 1][i] == m;
    var after := Take(h, listed, all, s, m);
    assert TakeAll(h, listed, all, ms[..i + 1]) == after;
    BindAndName(m);
    if all || listed(m) {
      DeviceName(h, listed, all, ms, i, k);
      hide IsBind, IsSubdirectory, EffectiveOpts, NameGiven, DeviceOf;
      if all || !IsBind(m) {
        assert Partitions(after.rows) == Partitions(s.rows) + [RowOf(h, s.seen, m).partition];
      }
    }
  }

  lemma DeviceName(h: Host, listed: Mount -> bool, all: bool, ms: seq<Mount>, i: nat, k: nat)
    requires i < |ms| && k <= i && ms[k].deviceId == ms[i].deviceId && (all || listed(ms[i])) && (all || listed(ms[k]))
    requires forall j :: 0 <= j < k && ms[j].deviceId == ms[k].deviceId ==> !all && !listed(ms[j])
    ensures DeviceOf(TakeAll(h, listed, all, ms[..i]).seen, ms[i]) == NameGiven(ms[k])
  {
    hide NameGiven, OwnDevice, Remember;
    var id := ms[i].deviceId;
    SeenIsFirstName(h, listed, all, ms[..i], id);
    BindAndName(ms[k]);
    if k < i {
      FirstNameIsFirst(listed, all, ms[..i], id, k);
    } else {
      NoFirstName(listed, all, ms[..i], id);
    }
  }

  /** The rows that stay: listed filesystems that are not binds. */
  function Kept(listed: Mount -> bool, ms: seq<Mount>, rows: seq<Row>): seq<Row>
    requires |ms| == |rows|
  {
    if ms == [] then []
    else
      var n := |ms| - 1;
      Kept(listed, ms[..n], rows[..n]) + if listed(ms[n]) && !rows[n].bind then [rows[n]] else []
  }

  lemma {:induction false} AllRowsShown(h: Host, listed: Mount -> bool, ms: seq<Mount>)
    ensures |TakeAll(h, listed, true, ms).rows| == |ms|
  {
    if ms != [] {
      AllRowsShown(h, listed, ms[..|ms| - 1]);
    }
  }

  /** The name of the first mount of a device, among all mounts or among the listed ones. */
  function FirstName(listed: Mount -> bool, all: bool, ms: seq<Mount>, id: string): Option<string> {
    if ms == [] then None
    else
      var n := |ms| - 1;
      var r := FirstName(listed, all, ms[..n], id);
      if r.Some? then r
      else if ms[n].deviceId == id && (all || listed(ms[n])) then Some(OwnDevice(ms[n]))
      else None
  }

  lemma {:induction false} SeenIsFirstName(h: Host, listed: Mount -> bool, all: bool, ms: seq<Mount>, id: string)
    ensures var seen := TakeAll(h, listed, all, ms).seen;
            FirstName(listed, all, ms, id) == if id in seen then Some(seen[id]) else None
  {
    if ms != [] {
      SeenIsFirstName(h, listed, all, ms[..|ms| - 1], id);
    }
  }

  /** What that name is: the own device of the first mount of the id that is considered. */
  lemma {:induction false} FirstNameIsFirst(listed: Mount -> bool, all: bool, ms: seq<Mount>, id: string, i: nat)
    requires i < |ms| && ms[i].deviceId == id && (all || listed(ms[i]))
    requires forall j :: 0 <= j < i && ms[j].deviceId == id ==> !all && !listed(ms[j])
    ensures FirstName(listed, all, ms, id) == Some(OwnDevice(ms[i]))
    decreases |ms|
  {
    var n := |ms| - 1;
    if i < n {
      FirstNameIsFirst(listed, all, ms[..n], id, i);
    } else {
      NoFirstName(listed, all, ms[..n], id);
    }
  }

  lemma {:induction false} NoFirstName(listed: Mount -> bool, all: bool, ms: seq<Mount>, id: string)
    requires forall j :: 0 <= j < |ms| && ms[j].deviceId == id ==> !all && !listed(ms[j])
    ensures FirstName(listed, all, ms, id) == None
  {
    if ms != [] {
      NoFirstName(listed, all, ms[..|ms| - 1], id);
    }
  }

  /** A mount that is considered gives its device a first name. */
  lemma {:induction false} HasFirstName(listed: Mount -> bool, all: bool, ms: seq<Mount>, i: nat)
    requires i < |ms| && (all || listed(ms[i]))
    ensures FirstName(listed, all, ms, ms[i].deviceId).Some?
  {
    if i < |ms| - 1 {
      HasFirstName(listed, all, ms[..|ms| - 1], i);
    }
  }

  /** The device name a mount is shown with, once resolved. */
  function ShownName(h: Host, listed: Mount -> bool, all: bool, ms: seq<Mount>, id: string): Option<string> {
    var name := FirstName(listed, all, ms, id);
    if name.None? then None else Some(h.resolve(name.value, id))
  }

  /**
   * Wherever a listed mount that is no bind stands, the first mount of its device and the first
   * listed mount of its device resolve to the same name.
   */
  predicate NamesAgree(h: Host, listed: Mount -> bool, ms: seq<Mount>) {
    forall i :: 0 <= i < |ms| && listed(ms[i]) && !IsBind(ms[i]) ==>
      ShownName(h, listed, true, ms, ms[i].deviceId) == ShownName(h, listed, false, ms, ms[i].deviceId)
  }

  lemma NamesAgreeStep(h: Host, listed: Mount -> bool, ms: seq<Mount>)
    requires ms != []
    ensures var n := |ms| - 1;
            NamesAgree(h, listed, ms) <==>
              && NamesAgree(h, listed, ms[..n])
              && (listed(ms[n]) && !IsBind(ms[n]) ==>
                    ShownName(h, listed, true, ms, ms[n].deviceId) == ShownName(h, listed, false, ms, ms[n].deviceId))
  {
    hide IsBind;
    var n := |ms| - 1;
    forall i | 0 <= i < n && listed(ms[i])
      ensures forall all :: ShownName(h, listed, all, ms, ms[i].deviceId) == ShownName(h, listed, all, ms[..n], ms[i].deviceId)
    {
      forall all ensures FirstName(listed, all, ms, ms[i].deviceId) == FirstName(listed, all, ms[..n], ms[i].deviceId) {
        HasFirstName(listed, all, ms[..n], i);
      }
    }
  }

  lemma RowShowsFirstName(h: Host, listed: Mount -> bool, all: bool, ms: seq<Mount>)
    requires ms != [] && listed(ms[|ms| - 1])
    ensures var n := |ms| - 1;
            var row := RowOf(h, TakeAll(h, listed, all, ms[..n]).seen, ms[n]);
            ShownName(h, listed, all, ms, ms[n].deviceId) == Some(row.partition.device)
  {
    SeenIsFirstName(h, listed, all, ms[..|ms| - 1], ms[|ms| - 1].deviceId);
  }

  lemma SameEnds<T>(a: seq<T>, x: T, b: seq<T>, y: T)
    ensures a + [x] == b + [y] <==> a == b && x == y
  {
    if a + [x] == b + [y] {
      assert |a| == |b| && a == (a + [x])[..|a|] && b == (b + [y])[..|a|];
      assert x == (a + [x])[|a|];
    }
  }

  /**
   * Without `all`, exactly the listed rows that are no binds remain (same order, devices and
   * options) if and only if their device names do not depend on unlisted mounts.
   */
  lemma {:induction false} NotAllIsFiltered(h: Host, listed: Mount -> bool, ms: seq<Mount>)
    ensures |TakeAll(h, listed, true, ms).rows| == |ms|
    ensures TakeAll(h, listed, false, ms).rows == Kept(listed, ms, TakeAll(h, listed, true, ms).rows)
       <==> NamesAgree(h, listed, ms)
  {
    AllRowsShown(h, listed, ms);
    if ms != [] {
      hide NamesAgree, ShownName, IsBind, EffectiveOpts, DeviceOf;
      var n := |ms| - 1;
      var rest, m := ms[..n], ms[n];
      NotAllIsFiltered(h, listed, rest);
      NamesAgreeStep(h, listed, ms);
      var full, part := TakeAll(h, listed, true, rest), TakeAll(h, listed, false, rest);
      assert TakeAll(h, listed, true, ms).rows[..n] == full.rows;
      if listed(m) && !IsBind(m) {
        RowShowsFirstName(h, listed, true, ms);
        RowShowsFirstName(h, listed, false, ms);
        SameEnds(part.rows, RowOf(h, part.seen, m), Kept(listed, rest, full.rows), RowOf(h, full.seen, m));
      }
    }
  }

  lemma {:induction false} SameFirstName(listed: Mount -> bool, ms: seq<Mount>, id: string)
    requires forall i :: 0 <= i < |ms| && ms[i].deviceId == id ==> listed(ms[i])
    ensures FirstName(listed, true, ms, id) == FirstName(listed, false, ms, id)
  {
    if ms != [] {
      SameFirstName(listed, ms[..|ms| - 1], id);
    }
  }

  /** Rows that share a device id share a filesystem type, which is what the kernel promises. */
  predicate OneTypePerDevice(ms: seq<Mount>) {
    forall i, j :: 0 <= i < |ms| && 0 <= j < |ms| && ms[i].deviceId == ms[j].deviceId ==> ms[i].fsType == ms[j].fsType
  }

  lemma NotAllOnKernelFiles(h: Host, fs: seq<string>, ms: seq<Mount>)
    requires OneTypePerDevice(ms)
    ensures |TakeAll(h, Listed(fs), true, ms).rows| == |ms|
    ensures TakeAll(h, Listed(fs), false, ms).rows == Kept(Listed(fs), ms, TakeAll(h, Listed(fs), true, ms).rows)
  {
    forall i | 0 <= i < |ms| && Listed(fs)(ms[i])
      ensures ShownName(h, Listed(fs), true, ms, ms[i].deviceId) == ShownName(h, Listed(fs), false, ms, ms[i].deviceId)
    {
      SameFirstName(Listed(fs), ms, ms[i].deviceId);
    }
    NotAllIsFiltered(h, Listed(fs), ms);
  }

  /** With two types on one device the shorter listing may show another name: its first mount was skipped. */
  lemma MixedTypesDiffer(h: Host, listed: Mount -> bool, a: Mount, b: Mount)
    requires a.deviceId == b.deviceId && !listed(a) && listed(b) && !IsBind(b)
    requires h.resolve(OwnDevice(a), b.deviceId) != h.resolve(OwnDevice(b), b.deviceId)
    ensures |TakeAll(h, listed, true, [a, b]).rows| == 2
    ensures TakeAll(h, listed, false, [a, b]).rows != Kept(listed, [a, b], TakeAll(h, listed, true, [a, b]).rows)
  {
    hide IsBind;
    var ms := [a, b];
    FirstNameIsFirst(listed, true, ms, b.deviceId, 0);
    FirstNameIsFirst(listed, false, ms, b.deviceId, 1);
    assert listed(ms[1]) && !IsBind(ms[1]);
    NotAllIsFiltered(h, listed, ms);
  }
}
