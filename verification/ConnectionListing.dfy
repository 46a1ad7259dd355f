/** The connection listing: rows of /proc/net joined with the inode index, duplicates removed. */
module ConnectionListing {
  import opened Text
  import opened SocketAddress
  import opened ConnectionKey
  import opened InodeIndex

  const SOCK_STREAM: nat := 1

  datatype Kind = Kind(family: Family, sockType: nat)

  const UNIX_SOCKETS := Kind(UNIX, 0)

  /** One /proc/net table as found when it is opened. */
  datatype File = Absent | Unreadable | Contents(text: string)

  datatype Stat = Stat(fd: nat, family: Family, sockType: nat, laddr: Addr, raddr: Addr, status: string, pid: int)

  /** What the listing is asked with: the index, the pid asked for (0 for all), the host and IP formatting. */
  datatype Query = Query(inodes: Index, filterPid: int, littleEndian: bool, show: seq<byte> -> string)

  /** How reading ends: with a value, with an error, or with an index out of range. */
  datatype Outcome<+T> = Done(value: T) | Broken | Panics

  /** IP text never contains a dash, in any form net.IP prints. */
  ghost predicate PlainAddresses(q: Query) {
    forall ip :: '-' !in q.show(ip)
  }

  const TCP_STATUSES: map<string, string> := map[
    "01" := "ESTABLISHED", "02" := "SYN_SENT", "03" := "SYN_RECV", "04" := "FIN_WAIT1",
    "05" := "FIN_WAIT2", "06" := "TIME_WAIT", "07" := "CLOSE", "08" := "CLOSE_WAIT",
    "09" := "LAST_ACK", "0A" := "LISTEN", "0B" := "CLOSING"]

  function TcpStatus(code: string): (s: string)
    ensures '-' !in s
  {
    if code in TCP_STATUSES then TCP_STATUSES[code] else ""
  }

  /* ---- rows ---- */

  /** Whether the first owner of an inode may be read: the source indexes its list unchecked. */
  predicate OwnerDefined(inodes: Index, inode: string) {
    inode in inodes ==> inodes[inode] != []
  }

  function FirstOwner(inodes: Index, inode: string): Holder
    requires OwnerDefined(inodes, inode)
  {
    if inode in inodes then inodes[inode][0] else Holder(0, 0)
  }

  /** Whether a line of an inet table can be read. */
  predicate Safe(q: Query, line: string) {
    |Fields(line)| >= 10 ==> OwnerDefined(q.inodes, Fields(line)[9])
  }

  predicate Wanted(q: Query, pid: int) {
    q.filterPid <= 0 || q.filterPid == pid
  }

  function InetRow(q: Query, kind: Kind, line: string): (r: Option<Conn>)
    requires Safe(q, line) && kind.family != UNIX
    ensures r.Some? ==> Wanted(q, r.value.pid)
    ensures r.Some? && PlainAddresses(q) ==> WellFormed(r.value)
  {
    var l := Fields(line);
    if |l| < 10 then None
    else
      var owner := FirstOwner(q.inodes, l[9]);
      var la, ra := Decoded(kind.family, l[1], q.littleEndian), Decoded(kind.family, l[2], q.littleEndian);
      if !Wanted(q, owner.pid) || la.None? || ra.None? then None
      else Some(Conn(owner.fd, kind.family, kind.sockType,
                     Addr(q.show(la.value.ip), la.value.port), Addr(q.show(ra.value.ip), ra.value.port),
                     if kind.sockType == SOCK_STREAM then TcpStatus(l[3]) else "NONE", owner.pid, l[9]))
  }

  /** The rows of an inet table, unless one of its lines cannot be read. */
  function InetRows(q: Query, kind: Kind, lines: seq<string>): Outcome<seq<Conn>>
    requires kind.family != UNIX
  {
    if lines == [] then Done([])
    else
      var before, line := InetRows(q, kind, lines[..|lines| - 1]), lines[|lines| - 1];
      if !before.Done? then before
      else if !Safe(q, line) then Panics
      else
        var row := InetRow(q, kind, line);
        Done(before.value + if row.Some? then [row.value] else [])
  }

  function PairRows(q: Query, sockType: nat, path: string, inode: string, pairs: seq<Holder>): seq<Conn> {
    if pairs == [] then []
    else
      var p := pairs[|pairs| - 1];
      PairRows(q, sockType, path, inode, pairs[..|pairs| - 1])
      + if Wanted(q, p.pid) then [Conn(p.fd, UNIX, sockType, Addr(path, 0), Addr("", 0), "NONE", p.pid, inode)] else []
  }

  /** The rows of one line of the unix table; None when its type column is not a number. */
  function UnixLine(q: Query, line: string): Option<seq<Conn>> {
    var tokens := Fields(line);
    if |tokens| < 7 then Some([])
    else
      var st := ParseInt(tokens[4], TWO31);
      if st.None? then None
      else
        var inode := tokens[6];
        var pairs := if inode in q.inodes then q.inodes[inode] else [Holder(0, 0)];
        Some(PairRows(q, st.value % TWO32, if |tokens| == 8 then tokens[7] else "", inode, pairs))
  }

  function UnixRows(q: Query, lines: seq<string>): Outcome<seq<Conn>> {
    if lines == [] then Done([])
    else
      var before, now := UnixRows(q, lines[..|lines| - 1]), UnixLine(q, lines[|lines| - 1]);
      if !before.Done? then before else if now.None? then Broken else Done(before.value + now.value)
  }

  function RowsOf(q: Query, kind: Kind, file: File): Outcome<seq<Conn>> {
    match file
    case Absent => if kind.family == INET6 then Done([]) else Broken
    case Unreadable => Broken
    case Contents(text) =>
      var lines := SplitOn(text, '\n')[1..];
      if kind.family == UNIX then UnixRows(q, lines) else InetRows(q, kind, lines)
  }

  /** All rows of the tables in order, or what the first table that has none ends with. */
  function AllRows(q: Query, kinds: seq<Kind>, files: seq<File>): Outcome<seq<Conn>>
    requires |kinds| == |files|
  {
    if kinds == [] then Done([])
    else
      var n := |kinds| - 1;
      var before, now := AllRows(q, kinds[..n], files[..n]), RowsOf(q, kinds[n], files[n]);
      if !before.Done? then before else if !now.Done? then now else Done(before.value + now.value)
  }

  /* ---- the code ---- */

  method ProcessInet(q: Query, kind: Kind, file: File) returns (rows: Outcome<seq<Conn>>)
    requires kind.family != UNIX
    ensures rows == RowsOf(q, kind, file)
    ensures file.Absent? && kind.family == INET6 ==> rows == Done([])
    ensures file.Unreadable? || (file.Absent? && kind.family == INET) ==> rows == Broken
  {
    hide InetRow, Safe, SplitOn;
    if kind.family == INET6 && file.Absent? {
      return Done([]);
    }
    if !file.Contents? {
      return Broken;
    }
    var lines := SplitOn(file.text, '\n')[1..];
    var ret := [];
    for i := 0 to |lines|
      invariant InetRows(q, kind, lines[..i]) == Done(ret)
    {
      assert lines[..i + 1][..i] == lines[..i] && lines[..i + 1][i] == lines[i];
      assert ret + [] == ret;
      var row := ReadInetLine(q, kind, lines[i]);
      if row.Panics? {
        InetRowsStop(q, kind, lines, i + 1);
        return Panics;
      }
      if row.value.Some? {
        ret := ret + [row.value.value];
      }
    }
    assert lines[..|lines|] == lines;
    rows := Done(ret);
  }

  method ReadInetLine(q: Query, kind: Kind, line: string) returns (row: Outcome<Option<Conn>>)
    requires kind.family != UNIX
    ensures row == if Safe(q, line) then Done(InetRow(q, kind, line)) else Panics
  {
    var l := Fields(line);
    if |l| < 10 {
      return Done(None);
    }
    var inode, pid, fd := l[9], 0, 0;
    if inode in q.inodes {
      if |q.inodes[inode]| == 0 {
        return Panics;
      }
      pid, fd := q.inodes[inode][0].pid, q.inodes[inode][0].fd;
    }
    if q.filterPid > 0 && q.filterPid != pid {
      return Done(None);
    }
    var status := l[3];
    if kind.sockType == SOCK_STREAM {
      status := TcpStatus(status);
    } else {
      status := "NONE";
    }
    var la := DecodeAddress(kind.family, l[1], q.littleEndian);
    if la.None? {
      return Done(None);
    }
    var ra := DecodeAddress(kind.family, l[2], q.littleEndian);
    if ra.None? {
      return Done(None);
    }
    return Done(Some(Conn(fd, kind.family, kind.sockType, Addr(q.show(la.value.ip), la.value.port),
                          Addr(q.show(ra.value.ip), ra.value.port), status, pid, inode)));
  }

  method ProcessUnix(q: Query, file: File) returns (rows: Outcome<seq<Conn>>)
    ensures rows == RowsOf(q, UNIX_SOCKETS, file)
    ensures !file.Contents? ==> rows == Broken
  {
    if !file.Contents? {
      return Broken;
    }
    var lines := SplitOn(file.text, '\n')[1..];
    var ret := [];
    for i := 0 to |lines|
      invariant UnixRows(q, lines[..i]) == Done(ret)
    {
      assert lines[..i + 1][..i] == lines[..i] && lines[..i + 1][i] == lines[i];
      var more := ReadUnixLine(q, lines[i]);
      if more.None? {
        UnixRowsStop(q, lines, i + 1);
        return Broken;
      }
      ret := ret + more.value;
    }
    assert lines[..|lines|] == lines;
    rows := Done(ret);
  }

  method ReadUnixLine(q: Query, line: string) returns (rows: Option<seq<Conn>>)
    ensures rows == UnixLine(q, line)
  {
    var tokens := Fields(line);
    if |tokens| < 7 {
      return Some([]);
    }
    var st := ParseInt(tokens[4], TWO31);
    if st.None? {
      return None;
    }
    var inode := tokens[6];
    var pairs := [Holder(0, 0)];
    if inode in q.inodes {
      pairs := q.inodes[inode];
    }
    var path := "";
    if |tokens| == 8 {
      path := tokens[|tokens| - 1];
    }
    var ret := [];
    for i := 0 to |pairs|
      invariant ret == PairRows(q, st.value % TWO32, path, inode, pairs[..i])
    {
      assert pairs[..i + 1][..i] == pairs[..i] && pairs[..i + 1][i] == pairs[i];
      if !(q.filterPid > 0 && q.filterPid != pairs[i].pid) {
        ret := ret + [Conn(pairs[i].fd, UNIX, st.value % TWO32, Addr(path, 0), Addr("", 0), "NONE", pairs[i].pid, inode)];
      }
    }
    assert pairs[..|pairs|] == pairs;
    rows := Some(ret);
  }

  lemma {:induction false} InetRowsStop(q: Query, kind: Kind, lines: seq<string>, i: nat)
    requires kind.family != UNIX && i <= |lines| && !InetRows(q, kind, lines[..i]).Done?
    ensures InetRows(q, kind, lines) == InetRows(q, kind, lines[..i])
    decreases |lines|
  {
    if i == |lines| {
      assert lines[..i] == lines;
    } else {
      assert lines[..|lines| - 1][..i] == lines[..i];
      InetRowsStop(q, kind, lines[..|lines| - 1], i);
    }
  }

  lemma {:induction false} UnixRowsStop(q: Query, lines: seq<string>, i: nat)
    requires i <= |lines| && !UnixRows(q, lines[..i]).Done?
    ensures UnixRows(q, lines) == UnixRows(q, lines[..i])
    decreases |lines|
  {
    if i == |lines| {
      assert lines[..i] == lines;
    } else {
      assert lines[..|lines| - 1][..i] == lines[..i];
      UnixRowsStop(q, lines[..|lines| - 1], i);
    }
  }

  lemma {:induction false} AllRowsStop(q: Query, kinds: seq<Kind>, files: seq<File>, i: nat)
    requires |kinds| == |files|
    requires i <= |kinds| && !AllRows(q, kinds[..i], files[..i]).Done?
    ensures AllRows(q, kinds, files) == AllRows(q, kinds[..i], files[..i])
    decreases |kinds|
  {
    if i == |kinds| {
      assert kinds[..i] == kinds && files[..i] == files;
    } else {
      var n := |kinds| - 1;
      assert kinds[..n][..i] == kinds[..i] && files[..n][..i] == files[..i];
      AllRowsStop(q, kinds[..n], files[..n], i);
    }
  }

  /** The rows of each table follow those of the tables before it. */
  lemma TablesInOrder(q: Query, kinds: seq<Kind>, files: seq<File>, i: nat)
    requires |kinds| == |files| && i < |kinds| && AllRows(q, kinds, files).Done?
    ensures AllRows(q, kinds[..i], files[..i]).Done? && RowsOf(q, kinds[i], files[i]).Done?
    ensures AllRows(q, kinds[..i], files[..i]).value + RowsOf(q, kinds[i], files[i]).value <= AllRows(q, kinds, files).value
    decreases |kinds|
  {
    hide RowsOf;
    var n := |kinds| - 1;
    if i < n {
      TablesInOrder(q, kinds[..n], files[..n], i);
      assert kinds[..n][..i] == kinds[..i] && files[..n][..i] == files[..i];
    }
  }

  /* ---- when the first-owner read goes wrong ---- */

  /** A table is read without an index out of range exactly when every line of it is safe. */
  lemma {:induction false} PanicsExactly(q: Query, kind: Kind, lines: seq<string>)
    requires kind.family != UNIX
    ensures InetRows(q, kind, lines) != Broken
    ensures InetRows(q, kind, lines).Panics? <==> exists i :: 0 <= i < |lines| && !Safe(q, lines[i])
  {
    if lines != [] {
      hide Safe;
      var n := |lines| - 1;
      PanicsExactly(q, kind, lines[..n]);
      if i :| 0 <= i < n && !Safe(q, lines[..n][i]) {
        assert !Safe(q, lines[i]);
      }
      if i :| 0 <= i < |lines| && !Safe(q, lines[i]) {
        assert i < n ==> !Safe(q, lines[..n][i]);
      }
    }
  }

  lemma {:induction false} UnixNeverPanics(q: Query, lines: seq<string>)
    ensures !UnixRows(q, lines).Panics?
  {
    if lines != [] {
      UnixNeverPanics(q, lines[..|lines| - 1]);
    }
  }

  /** An index without empty lists never makes a listing go out of range. */
  lemma {:induction false} OwnersDefinedNeverPanics(q: Query, kinds: seq<Kind>, files: seq<File>)
    requires OwnersDefined(q.inodes) && |kinds| == |files|
    ensures !AllRows(q, kinds, files).Panics?
  {
    if kinds != [] {
      var n := |kinds| - 1;
      OwnersDefinedNeverPanics(q, kinds[..n], files[..n]);
      if files[n].Contents? {
        var lines := SplitOn(files[n].text, '\n')[1..];
        if kinds[n].family == UNIX {
          UnixNeverPanics(q, lines);
        } else {
          PanicsExactly(q, kinds[n], lines);
        }
      }
    }
  }

  /* ---- one input that goes out of range ---- */

  /** A directory whose only descriptor has a name that is no number. */
  function OddDir(name: string, inode: string): seq<FdEntry> {
    [FdEntry(name, Some(SOCKET + inode + "]"))]
  }

  lemma OddDirIndex(pid: int, name: string, inode: string, index: Index)
    requires ParseInt(name, TWO31).None?
    ensures LinksClosed(OddDir(name, inode))
    ensures IsIndexOfOne(index, pid, RefsOf(OddDir(name, inode))) ==> inode in index && index[inode] == []
  {
    var link := SOCKET + inode + "]";
    var e := FdEntry(name, Some(link));
    assert |link| > |SOCKET| && link[..|SOCKET|] == SOCKET && link[|SOCKET|..|link| - 1] == inode;
    assert RefOf(e) == Socket(inode, None);
    if IsIndexOfOne(index, pid, RefsOf(OddDir(name, inode))) {
      var refs := RefsOf(OddDir(name, inode));
      assert refs == [Socket(inode, None)] && refs[..0] == [];
      assert Linked(refs, inode) && HoldersIn(pid, refs, inode) == [];
      assert Get(index, inode) == [];
    }
  }

  /** The process is asked for, and a line of its table names the socket of that descriptor. */
  lemma OddNameGoesOutOfRange(q: Query, pid: int, name: string, inode: string, kind: Kind, title: string, line: string)
    requires ParseInt(name, TWO31).None? && IsIndexOfOne(q.inodes, pid, RefsOf(OddDir(name, inode)))
    requires kind.family != UNIX && '\n' !in title && '\n' !in line && |Fields(line)| >= 10 && Fields(line)[9] == inode
    ensures Listing(q, [kind], [Contents(title + "\n" + line)]) == Panics
  {
    hide FreshKeys, InetRow, Fields, IsIndexOfOne;
    OddDirIndex(pid, name, inode, q.inodes);
    SplitOnHead(title, '\n', line);
    SplitOnNone(line, '\n');
    var text := title + "\n" + line;
    assert SplitOn(text, '\n')[1..] == [line];
    assert [line][..0] == [] && !Safe(q, line);
    assert InetRows(q, kind, [line]) == Panics;
    var kinds, files := [kind], [Contents(text)];
    assert RowsOf(q, kinds[0], files[0]) == Panics;
    assert kinds[..0] == [] && files[..0] == [] && AllRows(q, kinds[..0], files[..0]) == Done([]);
    assert AllRows(q, kinds, files) == Panics;
  }

  /** Descriptor "x" links to socket 5, and a line with 5 in its inode column is read. */
  lemma DescriptorNamedX(q: Query, pid: int)
    requires IsIndexOfOne(q.inodes, pid, RefsOf(OddDir("x", "5")))
    ensures Listing(q, [Kind(INET, SOCK_STREAM)], [Contents("" + "\n" + (Terminated(seq(9, _ => "0"), ' ') + "5"))]) == Panics
  {
    hide Listing, IsIndexOfOne, Terminated;
    var nine: seq<string> := seq(9, _ => "0");
    var line := Terminated(nine, ' ') + "5";
    FieldsOfJoined(nine, "5", ' ', IsSpace);
    TerminatedOnOneLine(nine);
    OddNameGoesOutOfRange(q, pid, "x", "5", Kind(INET, SOCK_STREAM), "", line);
  }

  lemma {:induction false} TerminatedOnOneLine(words: seq<string>)
    requires AllFree(words, '\n')
    ensures '\n' !in Terminated(words, ' ')
  {
    if words != [] {
      TerminatedOnOneLine(words[1..]);
    }
  }

  /* ---- de-duplication ---- */

  function Identities(rows: seq<Conn>): set<Identity> {
    set i | 0 <= i < |rows| :: IdentityOf(rows[i])
  }

  /** None of the rows is the same connection. */
  predicate Unseen(rows: seq<Conn>, c: Conn) {
    forall j :: 0 <= j < |rows| ==> IdentityOf(rows[j]) != IdentityOf(c)
  }

  /** The first row of every connection, in order. */
  function FirstRows(rows: seq<Conn>): seq<Conn> {
    if rows == [] then []
    else
      var n := |rows| - 1;
      FirstRows(rows[..n]) + if Unseen(rows[..n], rows[n]) then [rows[n]] else []
  }

  /** The keys of the rows: what the duplicate map holds when they have been seen. */
  function KeySet(rows: seq<Conn>): set<string> {
    if rows == [] then {} else KeySet(rows[..|rows| - 1]) + {Key(rows[|rows| - 1])}
  }

  /** What the loop keeps: the rows whose key was not known when they came. */
  function FreshKeys(rows: seq<Conn>): seq<Conn> {
    if rows == [] then []
    else
      var n := |rows| - 1;
      FreshKeys(rows[..n]) + if Key(rows[n]) in KeySet(rows[..n]) then [] else [rows[n]]
  }

  function ToStat(c: Conn): (r: Stat)
    ensures c.family != UNIX ==> InetId(r.sockType, r.laddr, r.raddr, r.status) == IdentityOf(c)
    ensures c.family == UNIX ==> UnixId(r.pid, r.fd, c.inode, r.sockType, r.laddr.ip) == IdentityOf(c)
  {
    Stat(c.fd, c.family, c.sockType, c.laddr, c.raddr, c.status, c.pid)
  }

  function ToStats(rows: seq<Conn>): (r: seq<Stat>)
    ensures |r| == |rows| && forall i :: 0 <= i < |r| ==> r[i] == ToStat(rows[i])
  {
    seq(|rows|, i requires 0 <= i < |rows| => ToStat(rows[i]))
  }

  predicate AllWellFormed(rows: seq<Conn>) {
    forall i :: 0 <= i < |rows| ==> WellFormed(rows[i])
  }

  /** A key is known exactly when the connection has been seen. */
  lemma {:induction false} KeyKnownExactlyWhenSeen(rows: seq<Conn>, c: Conn)
    requires AllWellFormed(rows) && WellFormed(c)
    ensures Key(c) in KeySet(rows) <==> !Unseen(rows, c)
  {
    if rows != [] {
      hide Key, IdentityOf, WellFormed;
      var n := |rows| - 1;
      KeyKnownExactlyWhenSeen(rows[..n], c);
      KeyIsIdentity(rows[n], c);
      assert Unseen(rows, c) <==> Unseen(rows[..n], c) && IdentityOf(rows[n]) != IdentityOf(c);
    }
  }

  /** Remembering keys keeps exactly the first row of every connection. */
  lemma {:induction false} FreshKeysAreFirstRows(rows: seq<Conn>)
    requires AllWellFormed(rows)
    ensures FreshKeys(rows) == FirstRows(rows)
  {
    hide Key, WellFormed, Unseen;
    if rows != [] {
      var n := |rows| - 1;
      FreshKeysAreFirstRows(rows[..n]);
      KeyKnownExactlyWhenSeen(rows[..n], rows[n]);
    }
  }

  /** The inner loop: rows of one table on top of those already listed. */
  method AddRows(ret: seq<Stat>, keys: set<string>, ls: seq<Conn>, ghost done: seq<Conn>)
    returns (ret': seq<Stat>, keys': set<string>)
    requires ret == ToStats(FreshKeys(done)) && keys == KeySet(done)
    ensures ret' == ToStats(FreshKeys(done + ls)) && keys' == KeySet(done + ls)
  {
    hide *;
    ret', keys' := ret, keys;
    ghost var all := done + ls;
    assert all[..|done|] == done;
    for i := 0 to |ls|
      invariant ret' == ToStats(FreshKeys(all[..|done| + i]))
      invariant keys' == KeySet(all[..|done| + i])
    {
      ret', keys' := AddRow(ret', keys', ls[i], all, |done| + i);
    }
    assert all[..|all|] == all;
  }

  method AddRow(ret: seq<Stat>, keys: set<string>, c: Conn, ghost all: seq<Conn>, ghost n: nat)
    returns (ret': seq<Stat>, keys': set<string>)
    requires n < |all| && c == all[n]
    requires ret == ToStats(FreshKeys(all[..n])) && keys == KeySet(all[..n])
    ensures ret' == ToStats(FreshKeys(all[..n + 1])) && keys' == KeySet(all[..n + 1])
  {
    hide Key, FreshKeys, KeySet;
    FreshKeysStep(all, n);
    var connKey := Key(c);
    if connKey in keys {
      assert keys + {connKey} == keys;
      return ret, keys;
    }
    ret' := ret + [ToStat(c)];
    keys' := keys + {connKey};
  }

  lemma FreshKeysStep(all: seq<Conn>, n: nat)
    requires n < |all|
    ensures FreshKeys(all[..n + 1]) == FreshKeys(all[..n]) + if Key(all[n]) in KeySet(all[..n]) then [] else [all[n]]
    ensures KeySet(all[..n + 1]) == KeySet(all[..n]) + {Key(all[n])}
  {
    hide Key;
    var more := all[..n + 1];
    assert more[..n] == all[..n] && more[n] == all[n];
  }

  /** No unix row carries a dash in its inode; the kernel writes inodes in decimal. */
  predicate PlainInodes(rows: seq<Conn>) {
    forall i :: 0 <= i < |rows| && rows[i].family == UNIX ==> '-' !in rows[i].inode
  }

  /** The rows have the shape under which keys identify connections, and belong to the pid asked for. */
  ghost predicate Shaped(q: Query, c: Conn) {
    && Wanted(q, c.pid)
    && (c.family == UNIX ==> c.laddr.port == 0 && c.raddr == Addr("", 0) && c.status == "NONE")
    && (c.family != UNIX && PlainAddresses(q) ==> WellFormed(c))
  }

  ghost predicate AllShaped(q: Query, rows: seq<Conn>) {
    forall i :: 0 <= i < |rows| ==> Shaped(q, rows[i])
  }

  lemma {:induction false} InetRowsShaped(q: Query, kind: Kind, lines: seq<string>)
    requires kind.family != UNIX
    ensures InetRows(q, kind, lines).Done? ==> AllShaped(q, InetRows(q, kind, lines).value)
  {
    if lines != [] {
      InetRowsShaped(q, kind, lines[..|lines| - 1]);
    }
  }

  lemma {:induction false} PairRowsShaped(q: Query, sockType: nat, path: string, inode: string, pairs: seq<Holder>)
    ensures AllShaped(q, PairRows(q, sockType, path, inode, pairs))
  {
    if pairs != [] {
      PairRowsShaped(q, sockType, path, inode, pairs[..|pairs| - 1]);
    }
  }

  lemma UnixLineShaped(q: Query, line: string)
    ensures UnixLine(q, line).Some? ==> AllShaped(q, UnixLine(q, line).value)
  {
    var tokens := Fields(line);
    if |tokens| >= 7 && ParseInt(tokens[4], TWO31).Some? {
      var inode := tokens[6];
      PairRowsShaped(q, ParseInt(tokens[4], TWO31).value % TWO32, if |tokens| == 8 then tokens[7] else "", inode,
                     if inode in q.inodes then q.inodes[inode] else [Holder(0, 0)]);
    }
  }

  lemma {:induction false} UnixRowsShaped(q: Query, lines: seq<string>)
    ensures UnixRows(q, lines).Done? ==> AllShaped(q, UnixRows(q, lines).value)
  {
    if lines != [] {
      UnixRowsShaped(q, lines[..|lines| - 1]);
      UnixLineShaped(q, lines[|lines| - 1]);
    }
  }

  lemma RowsShaped(q: Query, kind: Kind, file: File)
    ensures RowsOf(q, kind, file).Done? ==> AllShaped(q, RowsOf(q, kind, file).value)
  {
    if file.Contents? {
      var lines := SplitOn(file.text, '\n')[1..];
      if kind.family == UNIX {
        UnixRowsShaped(q, lines);
      } else {
        InetRowsShaped(q, kind, lines);
      }
    }
  }

  lemma ShapedAndPlain(q: Query, rows: seq<Conn>)
    requires AllShaped(q, rows) && PlainAddresses(q) && PlainInodes(rows)
    ensures AllWellFormed(rows)
  {
    forall i | 0 <= i < |rows| ensures WellFormed(rows[i]) {
      assert Shaped(q, rows[i]);
    }
  }

  /** The rows of all tables in order, except those whose key came before. */
  function Listing(q: Query, kinds: seq<Kind>, files: seq<File>): Outcome<seq<Stat>>
    requires |kinds| == |files|
  {
    match AllRows(q, kinds, files)
    case Done(rows) => Done(ToStats(FreshKeys(rows)))
    case Broken => Broken
    case Panics => Panics
  }

  method StatsFromInodes(q: Query, kinds: seq<Kind>, files: seq<File>) returns (r: Outcome<seq<Stat>>)
    requires |kinds| == |files|
    ensures r == Listing(q, kinds, files)
  {
    hide FreshKeys, KeySet, RowsOf;
    var ret: seq<Stat>, keys: set<string> := [], {};
    ghost var done: seq<Conn> := [];
    NothingListed();
    for i := 0 to |kinds|
      invariant AllRows(q, kinds[..i], files[..i]) == Done(done)
      invariant ret == ToStats(FreshKeys(done)) && keys == KeySet(done)
    {
      assert kinds[..i + 1][..i] == kinds[..i] && files[..i + 1][..i] == files[..i];
      var ls := ReadTable(q, kinds[i], files[i]);
      if !ls.Done? {
        AllRowsStop(q, kinds, files, i + 1);
        return if ls.Broken? then Broken else Panics;
      }
      ret, keys := AddRows(ret, keys, ls.value, done);
      done := done + ls.value;
    }
    assert kinds[..|kinds|] == kinds && files[..|kinds|] == files;
    r := Done(ret);
  }

  /**
   * A whole query. For one pid an unreadable descriptor directory gives an empty listing and no error;
   * for all pids (pid 0) it is an error unless the process is gone.
   */
  method ConnectionsPid(pid: int, own: FdDir, procs: Option<seq<Proc>>, kinds: seq<Kind>, files: seq<File>,
                        littleEndian: bool, show: seq<byte> -> string)
    returns (r: Outcome<seq<Stat>>, ghost index: Index)
    requires |kinds| == |files|
    ensures pid != 0 && !own.Entries? ==> r == Done([])
    ensures pid != 0 && own.Entries? && !LinksClosed(own.entries) ==> r == Panics
    ensures pid != 0 && own.Entries? && LinksClosed(own.entries) ==>
              && IsIndexOfOne(index, pid, RefsOf(own.entries))
              && r == if index == map[] then Done([]) else Listing(Query(index, pid, littleEndian, show), kinds, files)
    ensures pid == 0 && procs.None? ==> r == Broken
    ensures pid == 0 && procs.Some? && EndOf(procs.value).Error? ==> r == Broken
    ensures pid == 0 && procs.Some? && EndOf(procs.value).Panicked? ==> r == Panics
    ensures pid == 0 && procs.Some? && EndOf(procs.value).Finished? ==>
              && AllReadable(procs.value) && IsIndexOf(index, Scans(procs.value))
              && r == Listing(Query(index, pid, littleEndian, show), kinds, files)
    // with closed links and the kernel's decimal descriptor names nothing is ever out of range
    ensures pid != 0 && (own.Entries? ==> LinksClosed(own.entries)) && DecimalNames(own) ==> r != Panics
    ensures pid == 0 && (procs.Some? ==> AllReadable(procs.value) && AllDecimal(procs.value)) ==> r != Panics
  {
    hide Listing, AllRows;
    var inodes: Index;
    if pid == 0 {
      if procs.None? {
        return Broken, map[];
      }
      var end;
      inodes, end := GetProcInodesAll(procs.value);
      FinishedExactly(procs.value);
      EndWhenReadable(procs.value);
      if end.Panicked? {
        return Panics, inodes;
      }
      if end.Error? {
        return Broken, inodes;
      }
    } else {
      if !own.Entries? {
        return Done([]), map[];
      }
      var panics;
      inodes, panics := GetProcInodes(pid, own.entries);
      if panics {
        return Panics, inodes;
      }
      if inodes == map[] {
        return Done([]), inodes;
      }
    }
    index := inodes;
    r := StatsFromInodes(Query(inodes, pid, littleEndian, show), kinds, files);
    ghost var q := Query(inodes, pid, littleEndian, show);
    if pid == 0 && AllDecimal(procs.value) {
      DecimalNamesSuffice(inodes, procs.value);
      NoPanic(q, kinds, files);
    } else if pid != 0 && DecimalNames(own) {
      DecimalNamesAreNumbers(own.entries);
      OneProcessOwners(inodes, pid, RefsOf(own.entries));
      NoPanic(q, kinds, files);
    }
  }

  ghost predicate AllDecimal(procs: seq<Proc>) {
    forall i :: 0 <= i < |procs| ==> DecimalNames(procs[i].dir)
  }

  lemma NoPanic(q: Query, kinds: seq<Kind>, files: seq<File>)
    requires OwnersDefined(q.inodes) && |kinds| == |files|
    ensures !Listing(q, kinds, files).Panics?
  {
    OwnersDefinedNeverPanics(q, kinds, files);
  }

  lemma {:induction false} EndWhenReadable(procs: seq<Proc>)
    ensures AllReadable(procs) ==> !EndOf(procs).Panicked?
  {
    if procs != [] && AllReadable(procs) {
      assert Readable(procs[0]);
      EndWhenReadable(procs[1..]);
    }
  }

  lemma NothingListed()
    ensures FreshKeys([]) == [] && KeySet([]) == {}
  {
  }

  /** With plain IP text and inodes the listing is the first row of every distinct connection, in order. */
  lemma ListingIsFirstRows(q: Query, kinds: seq<Kind>, files: seq<File>)
    requires PlainAddresses(q) && |kinds| == |files|
    requires AllRows(q, kinds, files).Done? && PlainInodes(AllRows(q, kinds, files).value)
    ensures FreshKeys(AllRows(q, kinds, files).value) == FirstRows(AllRows(q, kinds, files).value)
  {
    hide *;
    AllRowsShaped(q, kinds, files);
    ShapedAndPlain(q, AllRows(q, kinds, files).value);
    FreshKeysAreFirstRows(AllRows(q, kinds, files).value);
  }

  method ReadTable(q: Query, kind: Kind, file: File) returns (ls: Outcome<seq<Conn>>)
    ensures ls == RowsOf(q, kind, file)
  {
    if kind.family == UNIX {
      ls := ProcessUnix(q, file);
    } else {
      ls := ProcessInet(q, kind, file);
    }
  }

  /**
   * A line as the kernel writes it is read back: both endpoints, the owner of the inode and the
   * state, for every IPv4 endpoint and, on little-endian hosts, every IPv6 endpoint; or it is left
   * out because another process was asked for.
   */
  lemma InetLineReadBack(q: Query, kind: Kind, line: string, local: Endpoint, remote: Endpoint)
    requires Safe(q, line)
    requires || (kind.family == INET && |local.ip| == 4 && |remote.ip| == 4)
             || (kind.family == INET6 && |local.ip| == 16 && |remote.ip| == 16 && q.littleEndian)
    requires local.port < 0x1_0000 && remote.port < 0x1_0000
    requires |Fields(line)| >= 10
    requires Fields(line)[1] == KernelText(local, q.littleEndian) && Fields(line)[2] == KernelText(remote, q.littleEndian)
    ensures var inode := Fields(line)[9];
            var owner := if inode in q.inodes then q.inodes[inode][0] else Holder(0, 0);
            var state := if kind.sockType == SOCK_STREAM then TcpStatus(Fields(line)[3]) else "NONE";
            InetRow(q, kind, line) ==
              if q.filterPid > 0 && owner.pid != q.filterPid then None
              else Some(Conn(owner.fd, kind.family, kind.sockType, Addr(q.show(local.ip), local.port),
                             Addr(q.show(remote.ip), remote.port), state, owner.pid, Fields(line)[9]))
  {
    hide Decoded, KernelText, Fields, TcpStatus, WellFormed;
    if kind.family == INET {
      RoundTripIPv4(local, q.littleEndian);
      RoundTripIPv4(remote, q.littleEndian);
    } else {
      RoundTripIPv6(local, q.littleEndian);
      RoundTripIPv6(remote, q.littleEndian);
    }
  }

  /* ---- who owns an inet row ---- */

  /** A row's owner is the first in the list of its inode, or nobody. */
  predicate FirstListed(q: Query, c: Conn) {
    c.family != UNIX ==>
      if c.inode in q.inodes then q.inodes[c.inode] != [] && Holder(c.pid, c.fd) == q.inodes[c.inode][0]
      else c.pid == 0 && c.fd == 0
  }

  predicate AllFirstListed(q: Query, rows: seq<Conn>) {
    forall i :: 0 <= i < |rows| ==> FirstListed(q, rows[i])
  }

  lemma {:induction false} InetRowsFirstListed(q: Query, kind: Kind, lines: seq<string>)
    requires kind.family != UNIX
    ensures InetRows(q, kind, lines).Done? ==> AllFirstListed(q, InetRows(q, kind, lines).value)
  {
    if lines != [] {
      InetRowsFirstListed(q, kind, lines[..|lines| - 1]);
    }
  }

  lemma {:induction false} PairRowsAreUnix(q: Query, sockType: nat, path: string, inode: string, pairs: seq<Holder>)
    ensures AllFirstListed(q, PairRows(q, sockType, path, inode, pairs))
  {
    if pairs != [] {
      PairRowsAreUnix(q, sockType, path, inode, pairs[..|pairs| - 1]);
    }
  }

  lemma {:induction false} UnixRowsAreUnix(q: Query, lines: seq<string>)
    ensures UnixRows(q, lines).Done? ==> AllFirstListed(q, UnixRows(q, lines).value)
  {
    if lines != [] {
      hide FirstListed, PairRows;
      UnixRowsAreUnix(q, lines[..|lines| - 1]);
      var tokens := Fields(lines[|lines| - 1]);
      if |tokens| >= 7 && ParseInt(tokens[4], TWO31).Some? {
        PairRowsAreUnix(q, ParseInt(tokens[4], TWO31).value % TWO32, if |tokens| == 8 then tokens[7] else "", tokens[6],
                        if tokens[6] in q.inodes then q.inodes[tokens[6]] else [Holder(0, 0)]);
      }
    }
  }

  lemma {:induction false} AllRowsFirstListed(q: Query, kinds: seq<Kind>, files: seq<File>)
    requires |kinds| == |files|
    ensures AllRows(q, kinds, files).Done? ==> AllFirstListed(q, AllRows(q, kinds, files).value)
  {
    if kinds != [] {
      hide FirstListed, InetRows, UnixRows;
      var n := |kinds| - 1;
      AllRowsFirstListed(q, kinds[..n], files[..n]);
      if files[n].Contents? {
        var lines := SplitOn(files[n].text, '\n')[1..];
        if kinds[n].family == UNIX {
          UnixRowsAreUnix(q, lines);
        } else {
          InetRowsFirstListed(q, kinds[n], lines);
        }
      }
    }
  }

  /**
   * The owner of an inet row, in the scanned directories: the earliest process, and in it the earliest
   * descriptor with a numeric name, that links to the row's inode; nobody exactly if none links to it.
   */
  ghost predicate OwnedByFirstLink(procs: seq<Proc>, inode: string, pid: int, fd: nat) {
    if SomeLink(procs, inode) then
      exists p: nat, d: nat ::
        && FirstLink(procs, inode, p, d) && pid == procs[p].pid
        && fd == ParseInt(procs[p].dir.entries[d].name, TWO31).value % TWO32
    else pid == 0 && fd == 0
  }

  lemma InetRowOwner(q: Query, procs: seq<Proc>, c: Conn)
    requires AllReadable(procs) && IsIndexOf(q.inodes, Scans(procs)) && FirstListed(q, c) && c.family != UNIX
    ensures OwnedByFirstLink(procs, c.inode, c.pid, c.fd)
  {
    hide ParseInt, FirstLink, SomeLink, Holders, AnyLinked;
    IndexedExactly(procs, c.inode);
    if c.inode in q.inodes {
      assert Get(q.inodes, c.inode) == q.inodes[c.inode] == Holders(Scans(procs), c.inode);
      var p, d := FirstHolderIsFirstLink(procs, c.inode);
      assert FirstLink(procs, c.inode, p, d);
    }
  }

  lemma {:induction false} FreshKeysAreRows(rows: seq<Conn>, k: nat) returns (i: nat)
    requires k < |FreshKeys(rows)|
    ensures i < |rows| && FreshKeys(rows)[k] == rows[i]
    decreases |rows|
  {
    hide Key, KeySet;
    var n := |rows| - 1;
    if k < |FreshKeys(rows[..n])| {
      i := FreshKeysAreRows(rows[..n], k);
    } else {
      i := n;
    }
  }

  /**
   * Over a whole query: every entry of the listing comes from a row of the tables, and if that is an
   * inet row, its pid and fd are those of the first link to its inode in the scanned directories.
   */
  lemma ListedOwners(q: Query, procs: seq<Proc>, kinds: seq<Kind>, files: seq<File>, k: nat) returns (c: Conn)
    requires |kinds| == |files| && AllReadable(procs) && IsIndexOf(q.inodes, Scans(procs))
    requires Listing(q, kinds, files).Done? && k < |Listing(q, kinds, files).value|
    ensures c in AllRows(q, kinds, files).value
    ensures var stat := Listing(q, kinds, files).value[k];
            && stat.family == c.family && stat.sockType == c.sockType && stat.laddr == c.laddr && stat.raddr == c.raddr
            && stat.status == c.status && stat.pid == c.pid && stat.fd == c.fd
            && (stat.family != UNIX ==> OwnedByFirstLink(procs, c.inode, stat.pid, stat.fd))
  {
    hide FreshKeys, AllRows, OwnedByFirstLink, IsIndexOf, FirstListed;
    var rows := AllRows(q, kinds, files).value;
    var i := FreshKeysAreRows(rows, k);
    c := rows[i];
    AllRowsFirstListed(q, kinds, files);
    if c.family != UNIX {
      InetRowOwner(q, procs, c);
    }
  }

  /* ---- whole tables, read back ---- */

  /** A line of an inet table with the endpoints it shows. */
  datatype InetEntry = InetEntry(local: Endpoint, remote: Endpoint, line: string)

  predicate ValidInet(q: Query, kind: Kind, e: InetEntry) {
    && '\n' !in e.line && Safe(q, e.line) && |Fields(e.line)| >= 10
    && (|| (kind.family == INET && |e.local.ip| == 4 && |e.remote.ip| == 4)
        || (kind.family == INET6 && |e.local.ip| == 16 && |e.remote.ip| == 16 && q.littleEndian))
    && e.local.port < 0x1_0000 && e.remote.port < 0x1_0000
    && Fields(e.line)[1] == KernelText(e.local, q.littleEndian) && Fields(e.line)[2] == KernelText(e.remote, q.littleEndian)
  }

  predicate AllValidInet(q: Query, kind: Kind, es: seq<InetEntry>) {
    forall i :: 0 <= i < |es| ==> ValidInet(q, kind, es[i])
  }

  /** The rows of such lines: endpoints, state, and the first holder of the inode if it is wanted. */
  function InetExpected(q: Query, kind: Kind, es: seq<InetEntry>): seq<Conn>
    requires AllValidInet(q, kind, es)
  {
    if es == [] then []
    else
      var e := es[|es| - 1];
      assert ValidInet(q, kind, e);
      var inode := Fields(e.line)[9];
      var owner := if inode in q.inodes then q.inodes[inode][0] else Holder(0, 0);
      var state := if kind.sockType == SOCK_STREAM then TcpStatus(Fields(e.line)[3]) else "NONE";
      InetExpected(q, kind, es[..|es| - 1])
      + if q.filterPid > 0 && owner.pid != q.filterPid then []
        else [Conn(owner.fd, kind.family, kind.sockType, Addr(q.show(e.local.ip), e.local.port),
                   Addr(q.show(e.remote.ip), e.remote.port), state, owner.pid, inode)]
  }

  function InetLines(es: seq<InetEntry>): (r: seq<string>)
    ensures |r| == |es| && forall i :: 0 <= i < |r| ==> r[i] == es[i].line
  {
    seq(|es|, i requires 0 <= i < |es| => es[i].line)
  }

  lemma {:induction false} InetRowsExpected(q: Query, kind: Kind, es: seq<InetEntry>)
    requires kind.family != UNIX && AllValidInet(q, kind, es)
    ensures InetRows(q, kind, InetLines(es)) == Done(InetExpected(q, kind, es))
  {
    if es != [] {
      var n := |es| - 1;
      var e := es[n];
      InetRowsExpected(q, kind, es[..n]);
      assert ValidInet(q, kind, e);
      InetLineReadBack(q, kind, e.line, e.local, e.remote);
      hide InetRow, Fields, KernelText, TcpStatus;
      assert InetLines(es)[..n] == InetLines(es[..n]);
    }
  }

  /** The lines behind the title of a newline-terminated table, and the empty one that ends it. */
  lemma TableLines(title: string, lines: seq<string>)
    requires '\n' !in title && AllFree(lines, '\n')
    ensures SplitOn(Terminated([title] + lines, '\n'), '\n')[1..] == lines + [""]
  {
    var all := [title] + lines;
    SplitOnTerminated(all, '\n', "");
    SplitOnNone("", '\n');
    assert Terminated(all, '\n') + "" == Terminated(all, '\n');
    assert (all + [""])[1..] == lines + [""];
  }

  lemma BlankInetLine(q: Query, kind: Kind, lines: seq<string>)
    requires kind.family != UNIX
    ensures InetRows(q, kind, lines + [""]) == InetRows(q, kind, lines)
  {
    FieldsOfNothing();
    assert (lines + [""])[..|lines|] == lines;
    if InetRows(q, kind, lines).Done? {
      assert InetRows(q, kind, lines).value + [] == InetRows(q, kind, lines).value;
    }
  }

  /** A whole inet table: the title is passed over, and every line behind it gives its row, in order. */
  lemma InetTableReadBack(q: Query, kind: Kind, title: string, es: seq<InetEntry>)
    requires kind.family != UNIX && '\n' !in title && AllValidInet(q, kind, es)
    ensures RowsOf(q, kind, Contents(Terminated([title] + InetLines(es), '\n'))) == Done(InetExpected(q, kind, es))
  {
    InetRowsExpected(q, kind, es);
    var lines := InetLines(es);
    assert AllFree(lines, '\n') by {
      forall i | 0 <= i < |lines| ensures '\n' !in lines[i] {
        assert ValidInet(q, kind, es[i]);
      }
    }
    hide InetRows, InetExpected, ValidInet, SplitOn, Terminated;
    TableLines(title, lines);
    BlankInetLine(q, kind, lines);
  }

  /* ---- a line of the unix table, read back ---- */

  /** What a socket path is shown as: its only word, or nothing. */
  function ShownSocketPath(path: string): string {
    if |Fields(path)| == 1 then Fields(path)[0] else ""
  }

  lemma ShownSocketPathExactly(path: string)
    ensures ShownSocketPath(path) == path <==> Solid(path, IsSpace)
  {
    FieldsAreWords(path);
    if path != "" && Solid(path, IsSpace) {
      FieldsHead(path, "", IsSpace);
      assert path + "" == path;
      assert Fields(path) == [path] + Fields("");
    } else if |Fields(path)| == 1 {
      assert IsWord(Fields(path)[0]);
    }
  }

  /**
   * Seven columns and a path, however padded: one row per wanted holder with type, inode and the
   * path, which is read back if and only if it holds no white space.
   */
  lemma UnixLineReadBack(q: Query, fields: seq<string>, pads: seq<string>, path: string)
    requires |fields| == 7 && ValidColumns(fields, pads, path)
    ensures var st, inode := ParseInt(fields[4], TWO31), fields[6];
            var holders := if inode in q.inodes then q.inodes[inode] else [Holder(0, 0)];
            UnixLine(q, Padded(fields, pads) + path) ==
              if st.None? then None else Some(PairRows(q, st.value % TWO32, ShownSocketPath(path), inode, holders))
    ensures ShownSocketPath(path) == path <==> Solid(path, IsSpace)
  {
    hide Fields, PairRows, Solid, ParseInt;
    FieldsOfColumns(fields, pads, path);
    ShownSocketPathExactly(path);
    var tokens := fields + Fields(path);
    assert tokens[4] == fields[4] && tokens[6] == fields[6];
    assert |tokens| == 8 ==> tokens[7] == Fields(path)[0];
  }

  /** The holders that are wanted, in order. */
  function WantedHolders(filterPid: int, holders: seq<Holder>): seq<Holder> {
    if holders == [] then []
    else
      var h := holders[|holders| - 1];
      WantedHolders(filterPid, holders[..|holders| - 1]) + if filterPid > 0 && filterPid != h.pid then [] else [h]
  }

  lemma {:induction false} PairRowsExactly(q: Query, sockType: nat, path: string, inode: string, pairs: seq<Holder>)
    ensures var rows, ws := PairRows(q, sockType, path, inode, pairs), WantedHolders(q.filterPid, pairs);
            && |rows| == |ws|
            && forall k :: 0 <= k < |ws| ==>
                 rows[k] == Conn(ws[k].fd, UNIX, sockType, Addr(path, 0), Addr("", 0), "NONE", ws[k].pid, inode)
  {
    if pairs != [] {
      PairRowsExactly(q, sockType, path, inode, pairs[..|pairs| - 1]);
    }
  }

  /** A line of a unix table: its seven columns, their padding, and the path. */
  datatype UnixEntry = UnixEntry(fields: seq<string>, pads: seq<string>, path: string)

  predicate ValidUnix(e: UnixEntry) {
    && |e.fields| == 7 && ValidColumns(e.fields, e.pads, e.path) && ParseInt(e.fields[4], TWO31).Some?
    && AllFree(e.pads, '\n') && '\n' !in e.path
  }

  function UnixLineOf(e: UnixEntry): string
    requires ValidUnix(e)
  {
    Padded(e.fields, e.pads) + e.path
  }

  /** The rows of one such line: one for each wanted holder of its inode, with the holder's pid and fd. */
  function UnixEntryRows(q: Query, e: UnixEntry): seq<Conn>
    requires ValidUnix(e)
  {
    var inode := e.fields[6];
    var ws := WantedHolders(q.filterPid, if inode in q.inodes then q.inodes[inode] else [Holder(0, 0)]);
    seq(|ws|, k requires 0 <= k < |ws| =>
      Conn(ws[k].fd, UNIX, ParseInt(e.fields[4], TWO31).value % TWO32, Addr(ShownSocketPath(e.path), 0), Addr("", 0), "NONE",
           ws[k].pid, inode))
  }

  predicate AllValidUnix(es: seq<UnixEntry>) {
    forall i :: 0 <= i < |es| ==> ValidUnix(es[i])
  }

  function UnixExpected(q: Query, es: seq<UnixEntry>): seq<Conn>
    requires AllValidUnix(es)
  {
    if es == [] then [] else UnixExpected(q, es[..|es| - 1]) + UnixEntryRows(q, es[|es| - 1])
  }

  function UnixLines(es: seq<UnixEntry>): (r: seq<string>)
    requires AllValidUnix(es)
    ensures |r| == |es| && forall i :: 0 <= i < |r| ==> r[i] == UnixLineOf(es[i])
  {
    seq(|es|, i requires 0 <= i < |es| => UnixLineOf(es[i]))
  }

  lemma UnixEntryReadBack(q: Query, e: UnixEntry)
    requires ValidUnix(e)
    ensures UnixLine(q, UnixLineOf(e)) == Some(UnixEntryRows(q, e))
  {
    hide UnixLine, PairRows, ShownSocketPath, ParseInt;
    UnixLineReadBack(q, e.fields, e.pads, e.path);
    var inode := e.fields[6];
    var holders := if inode in q.inodes then q.inodes[inode] else [Holder(0, 0)];
    var sockType := ParseInt(e.fields[4], TWO31).value % TWO32;
    PairRowsExactly(q, sockType, ShownSocketPath(e.path), inode, holders);
    assert PairRows(q, sockType, ShownSocketPath(e.path), inode, holders) == UnixEntryRows(q, e);
  }

  lemma OneMoreUnixLine(q: Query, lines: seq<string>, line: string)
    ensures UnixRows(q, lines + [line]) ==
              if !UnixRows(q, lines).Done? then UnixRows(q, lines)
              else if UnixLine(q, line).None? then Broken
              else Done(UnixRows(q, lines).value + UnixLine(q, line).value)
  {
    hide UnixLine;
    assert (lines + [line])[..|lines|] == lines;
  }

  lemma {:induction false} UnixRowsExpected(q: Query, es: seq<UnixEntry>)
    requires AllValidUnix(es)
    ensures UnixRows(q, UnixLines(es)) == Done(UnixExpected(q, es))
  {
    hide UnixLine, UnixEntryRows, ValidUnix, UnixLineOf;
    if es != [] {
      hide UnixRows;
      var n := |es| - 1;
      UnixRowsExpected(q, es[..n]);
      UnixEntryReadBack(q, es[n]);
      OneMoreUnixLine(q, UnixLines(es[..n]), UnixLineOf(es[n]));
      assert UnixLines(es) == UnixLines(es[..n]) + [UnixLineOf(es[n])];
    }
  }

  lemma BlankUnixLine(q: Query, lines: seq<string>)
    ensures UnixRows(q, lines + [""]) == UnixRows(q, lines)
  {
    FieldsOfNothing();
    assert (lines + [""])[..|lines|] == lines;
    if UnixRows(q, lines).Done? {
      assert UnixRows(q, lines).value + [] == UnixRows(q, lines).value;
    }
  }

  /** A whole unix table: the title is passed over, and every line behind it gives the rows of its holders, in order. */
  lemma UnixTableReadBack(q: Query, title: string, es: seq<UnixEntry>)
    requires '\n' !in title && AllValidUnix(es)
    ensures RowsOf(q, UNIX_SOCKETS, Contents(Terminated([title] + UnixLines(es), '\n'))) == Done(UnixExpected(q, es))
  {
    UnixRowsExpected(q, es);
    var lines := UnixLines(es);
    forall i | 0 <= i < |lines| ensures '\n' !in lines[i] {
      assert ValidUnix(es[i]);
      ColumnsOnOneLine(es[i].fields, es[i].pads);
    }
    hide UnixRows, UnixExpected, AllValidUnix, SplitOn, Terminated;
    TableLines(title, lines);
    BlankUnixLine(q, lines);
  }

  /* ---- what the listing holds ---- */

  lemma {:induction false} AllRowsShaped(q: Query, kinds: seq<Kind>, files: seq<File>)
    requires |kinds| == |files|
    ensures AllRows(q, kinds, files).Done? ==> AllShaped(q, AllRows(q, kinds, files).value)
  {
    if kinds != [] {
      var n := |kinds| - 1;
      AllRowsShaped(q, kinds[..n], files[..n]);
      RowsShaped(q, kinds[n], files[n]);
    }
  }

  lemma {:induction false} FreshKeysShaped(q: Query, rows: seq<Conn>)
    requires AllShaped(q, rows)
    ensures AllShaped(q, FreshKeys(rows))
  {
    hide Shaped, Key;
    if rows != [] {
      FreshKeysShaped(q, rows[..|rows| - 1]);
    }
  }

  /** Asked for one process, the listing holds rows of that process only. */
  lemma OnlyThatProcess(q: Query, kinds: seq<Kind>, files: seq<File>)
    requires |kinds| == |files| && q.filterPid > 0
    ensures var listing := Listing(q, kinds, files);
            listing.Done? ==> forall i :: 0 <= i < |listing.value| ==> listing.value[i].pid == q.filterPid
  {
    if AllRows(q, kinds, files).Done? {
      var rows := AllRows(q, kinds, files).value;
      AllRowsShaped(q, kinds, files);
      FreshKeysShaped(q, rows);
      forall i | 0 <= i < |FreshKeys(rows)| ensures FreshKeys(rows)[i].pid == q.filterPid {
        assert Shaped(q, FreshKeys(rows)[i]);
      }
    }
  }

  /** Every connection found is listed, and none twice. */
  lemma {:induction false} ListedOnceEach(rows: seq<Conn>)
    ensures Identities(FirstRows(rows)) == Identities(rows)
    ensures forall i, j :: 0 <= i < j < |FirstRows(rows)| ==> IdentityOf(FirstRows(rows)[i]) != IdentityOf(FirstRows(rows)[j])
  {
    if rows != [] {
      var n := |rows| - 1;
      var some := FirstRows(rows[..n]);
      ListedOnceEach(rows[..n]);
      IdentitiesStep(rows, n);
      var all := FirstRows(rows);
      if Unseen(rows[..n], rows[n]) {
        assert all == some + [rows[n]];
        assert Identities(all) == Identities(some) + {IdentityOf(rows[n])} by {
          assert all[..|some|] == some;
          IdentitiesStep(all, |some|);
        }
        forall i | 0 <= i < |some| ensures IdentityOf(some[i]) != IdentityOf(rows[n]) {
          assert IdentityOf(some[i]) in Identities(some);
        }
      } else {
        assert all == some;
      }
    }
  }

  lemma IdentitiesStep(rows: seq<Conn>, n: nat)
    requires n + 1 == |rows|
    ensures Identities(rows) == Identities(rows[..n]) + {IdentityOf(rows[n])}
    ensures Unseen(rows[..n], rows[n]) <==> IdentityOf(rows[n]) !in Identities(rows[..n])
  {
    forall id ensures id in Identities(rows) <==> id in Identities(rows[..n]) || id == IdentityOf(rows[n]) {
      if id in Identities(rows[..n]) {
        var i :| 0 <= i < n && IdentityOf(rows[..n][i]) == id;
        assert IdentityOf(rows[i]) == id;
      }
      if id in Identities(rows) {
        var i :| 0 <= i < |rows| && IdentityOf(rows[i]) == id;
        if i < n {
          assert IdentityOf(rows[..n][i]) == id;
        }
      }
    }
  }

  /* ---- which sockets are listed ---- */

  predicate InodeFound(rows: seq<Conn>, inode: string) {
    exists i :: 0 <= i < |rows| && rows[i].inode == inode
  }

  /** Row `i` is of the inode, and every earlier row of its connection is too. */
  predicate OwnConnection(rows: seq<Conn>, inode: string, i: nat) {
    && i < |rows| && rows[i].inode == inode
    && forall j :: 0 <= j < i && IdentityOf(rows[j]) == IdentityOf(rows[i]) ==> rows[j].inode == inode
  }

  lemma {:induction false} FirstOfConnection(rows: seq<Conn>, i: nat) returns (k: nat)
    requires i < |rows|
    ensures k <= i && IdentityOf(rows[k]) == IdentityOf(rows[i]) && Unseen(rows[..k], rows[k])
  {
    if Unseen(rows[..i], rows[i]) {
      k := i;
    } else {
      var j :| 0 <= j < i && IdentityOf(rows[..i][j]) == IdentityOf(rows[i]);
      k := FirstOfConnection(rows, j);
    }
  }

  lemma {:induction false} FirstRowListed(rows: seq<Conn>, k: nat)
    requires k < |rows| && Unseen(rows[..k], rows[k])
    ensures InodeFound(FirstRows(rows), rows[k].inode)
    decreases |rows|
  {
    hide Unseen;
    var n := |rows| - 1;
    var some, all := FirstRows(rows[..n]), FirstRows(rows);
    if k < n {
      assert rows[..n][..k] == rows[..k];
      FirstRowListed(rows[..n], k);
      var i :| 0 <= i < |some| && some[i].inode == rows[k].inode;
      assert all[i] == some[i];
    } else {
      assert all == some + [rows[n]] && all[|some|].inode == rows[k].inode;
    }
  }

  lemma {:induction false} ListedIsFirst(rows: seq<Conn>, i: nat) returns (k: nat)
    requires i < |FirstRows(rows)|
    ensures k < |rows| && rows[k] == FirstRows(rows)[i] && Unseen(rows[..k], rows[k])
    decreases |rows|
  {
    hide Unseen;
    var n := |rows| - 1;
    var some := FirstRows(rows[..n]);
    if i < |some| {
      k := ListedIsFirst(rows[..n], i);
      assert rows[..n][..k] == rows[..k];
    } else {
      k := n;
    }
  }

  /**
   * An inode is listed exactly when one of its rows is of a connection not seen before under another
   * inode; sockets that share type, endpoints and status show only the first.
   */
  lemma InodeListedExactly(rows: seq<Conn>, inode: string)
    ensures InodeFound(FirstRows(rows), inode) <==> exists i: nat :: OwnConnection(rows, inode, i)
  {
    if InodeFound(FirstRows(rows), inode) {
      var i :| 0 <= i < |FirstRows(rows)| && FirstRows(rows)[i].inode == inode;
      var k := ListedIsFirst(rows, i);
      forall j | 0 <= j < k ensures IdentityOf(rows[j]) != IdentityOf(rows[k]) {
        assert rows[..k][j] == rows[j];
      }
      assert OwnConnection(rows, inode, k);
    }
    if i: nat :| OwnConnection(rows, inode, i) {
      var k := FirstOfConnection(rows, i);
      assert rows[k].inode == inode;
      FirstRowListed(rows, k);
    }
  }

  /** Every unix socket found is listed: its inode is part of its identity. */
  lemma UnixInodesListed(rows: seq<Conn>, i: nat)
    requires i < |rows| && rows[i].family == UNIX
    ensures InodeFound(FirstRows(rows), rows[i].inode)
  {
    assert OwnConnection(rows, rows[i].inode, i);
    InodeListedExactly(rows, rows[i].inode);
  }

  /** Two listeners on one port: the second socket is not listed. */
  lemma SharedPortListsOne(c: Conn, pid: int, fd: nat, inode: string)
    requires c.family != UNIX && inode != c.inode
    ensures FirstRows([c, c.(pid := pid, fd := fd, inode := inode)]) == [c]
    ensures !InodeFound([c], inode)
  {
    var d := c.(pid := pid, fd := fd, inode := inode);
    assert [c, d][..1] == [c] && [c][..0] == [];
    assert FirstRows([c]) == [c];
    assert [c][0] == c && !Unseen([c], d);
  }
}
