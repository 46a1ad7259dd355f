/** Which process and descriptor holds each socket inode, gathered from /proc/<pid>/fd. */
module InodeIndex {
  import opened Text

  datatype Holder = Holder(pid: int, fd: nat)

  /** A descriptor's name and where its link points; reading the link may fail. */
  datatype FdEntry = FdEntry(name: string, link: Option<string>)

  /** Listing one process's descriptors: the entries, a process that is gone, or a real error. */
  datatype FdDir = Entries(entries: seq<FdEntry>) | Gone | Fatal(err: int)

  datatype Proc = Proc(pid: int, dir: FdDir)

  type Index = map<string, seq<Holder>>

  const SOCKET: string := "socket:["

  /* ---- one descriptor ---- */

  /** What a descriptor says: not a socket, or a socket's inode and its own number if the name is one. */
  datatype Ref = Other | Socket(inode: string, fd: Option<nat>)

  /** Every socket link is closed by a bracket; slicing a bare "socket:[" is out of range. */
  predicate LinkClosed(e: FdEntry) {
    e.link != Some(SOCKET)
  }

  lemma SocketLinkLength(link: string)
    requires HasPrefix(link, SOCKET) && link != SOCKET
    ensures |link| > |SOCKET|
  {
    assert link == link[..|SOCKET|] + link[|SOCKET|..];
  }

  function RefOf(e: FdEntry): Ref
    requires LinkClosed(e)
  {
    if e.link.None? || !HasPrefix(e.link.value, SOCKET) then Other
    else
      SocketLinkLength(e.link.value);
      var fd := ParseInt(e.name, TWO31);
      Socket(e.link.value[|SOCKET|..|e.link.value| - 1], if fd.Some? then Some(fd.value % TWO32) else None)
  }

  predicate LinksClosed(entries: seq<FdEntry>) {
    forall i :: 0 <= i < |entries| ==> LinkClosed(entries[i])
  }

  function RefsOf(entries: seq<FdEntry>): (r: seq<Ref>)
    requires LinksClosed(entries)
    ensures |r| == |entries| && forall i :: 0 <= i < |r| ==> r[i] == RefOf(entries[i])
  {
    seq(|entries|, i requires 0 <= i < |entries| => RefOf(entries[i]))
  }

  /* ---- who holds an inode, defined without any map ---- */

  predicate Links(r: Ref, inode: string) {
    r.Socket? && r.inode == inode
  }

  function HolderOf(pid: int, r: Ref, inode: string): seq<Holder> {
    if Links(r, inode) && r.fd.Some? then [Holder(pid, r.fd.value)] else []
  }

  function HoldersIn(pid: int, refs: seq<Ref>, inode: string): seq<Holder> {
    if refs == [] then []
    else HoldersIn(pid, refs[..|refs| - 1], inode) + HolderOf(pid, refs[|refs| - 1], inode)
  }

  predicate Linked(refs: seq<Ref>, inode: string) {
    refs != [] && (Linked(refs[..|refs| - 1], inode) || Links(refs[|refs| - 1], inode))
  }

  predicate LinkedByNumber(refs: seq<Ref>, inode: string) {
    refs != [] && (LinkedByNumber(refs[..|refs| - 1], inode) || (Links(refs[|refs| - 1], inode) && refs[|refs| - 1].fd.Some?))
  }

  predicate Readable(p: Proc) {
    p.dir.Entries? ==> LinksClosed(p.dir.entries)
  }

  predicate AllReadable(procs: seq<Proc>) {
    forall i :: 0 <= i < |procs| ==> Readable(procs[i])
  }

  function ProcRefs(p: Proc): seq<Ref>
    requires Readable(p)
  {
    if p.dir.Entries? then RefsOf(p.dir.entries) else []
  }

  /** A process's references, kept with its pid. */
  datatype Scan = Scan(pid: int, refs: seq<Ref>)

  function Scans(procs: seq<Proc>): (r: seq<Scan>)
    requires AllReadable(procs)
    ensures |r| == |procs| && forall i :: 0 <= i < |r| ==> r[i] == Scan(procs[i].pid, ProcRefs(procs[i]))
  {
    seq(|procs|, i requires 0 <= i < |procs| => Scan(procs[i].pid, ProcRefs(procs[i])))
  }

  /** The holders of an inode over all processes, in scan order. */
  function Holders(scans: seq<Scan>, inode: string): seq<Holder> {
    if scans == [] then []
    else
      var last := scans[|scans| - 1];
      Holders(scans[..|scans| - 1], inode) + HoldersIn(last.pid, last.refs, inode)
  }

  predicate AnyLinked(scans: seq<Scan>, inode: string) {
    scans != [] && (AnyLinked(scans[..|scans| - 1], inode) || Linked(scans[|scans| - 1].refs, inode))
  }

  predicate AnyLinkedByNumber(scans: seq<Scan>, inode: string) {
    scans != [] && (AnyLinkedByNumber(scans[..|scans| - 1], inode) || LinkedByNumber(scans[|scans| - 1].refs, inode))
  }

  function Get(m: Index, inode: string): seq<Holder> {
    if inode in m then m[inode] else []
  }

  /** The index holds exactly the linked inodes, each with its holders. */
  ghost predicate IsIndexOf(index: Index, scans: seq<Scan>) {
    forall inode :: (inode in index <==> AnyLinked(scans, inode)) && Get(index, inode) == Holders(scans, inode)
  }

  ghost predicate IsIndexOfOne(index: Index, pid: int, refs: seq<Ref>) {
    forall inode :: (inode in index <==> Linked(refs, inode)) && Get(index, inode) == HoldersIn(pid, refs, inode)
  }

  /* ---- the code ---- */

  method GetProcInodes(pid: int, entries: seq<FdEntry>) returns (ret: Index, panics: bool)
    ensures panics <==> !LinksClosed(entries)
    ensures !panics ==> IsIndexOfOne(ret, pid, RefsOf(entries))
  {
    ret := map[];
    for i := 0 to |entries|
      invariant LinksClosed(entries[..i]) && IsIndexOfOne(ret, pid, RefsOf(entries[..i]))
    {
      ghost var before := ret;
      ret, panics := AddEntry(ret, pid, entries[i]);
      if panics {
        return;
      }
      ghost var refs := RefsOf(entries[..i + 1]);
      assert refs[..i] == RefsOf(entries[..i]) && refs[..i + 1] == refs;
      OneMoreRef(before, ret, pid, refs, i);
    }
    assert entries[..|entries|] == entries;
    panics := false;
  }

  lemma OneMoreRef(before: Index, after: Index, pid: int, refs: seq<Ref>, i: nat)
    requires i < |refs| && IsIndexOfOne(before, pid, refs[..i])
    requires forall inode :: inode in after <==> inode in before || Links(refs[i], inode)
    requires forall inode :: Get(after, inode) == Get(before, inode) + HolderOf(pid, refs[i], inode)
    ensures IsIndexOfOne(after, pid, refs[..i + 1])
  {
    var more := refs[..i + 1];
    assert more[..i] == refs[..i] && more[i] == refs[i];
    forall inode ensures (inode in after <==> Linked(more, inode)) && Get(after, inode) == HoldersIn(pid, more, inode) {
      assert Get(before, inode) == HoldersIn(pid, refs[..i], inode);
    }
  }

  /** The body of the loop over directory entries. */
  method AddEntry(index: Index, pid: int, e: FdEntry) returns (ret: Index, panics: bool)
    ensures panics <==> !LinkClosed(e)
    ensures !panics ==> forall inode :: inode in ret <==> inode in index || Links(RefOf(e), inode)
    ensures !panics ==> forall inode :: Get(ret, inode) == Get(index, inode) + HolderOf(pid, RefOf(e), inode)
  {
    ret, panics := index, false;
    if e.link.None? || !HasPrefix(e.link.value, SOCKET) {
      return;
    }
    if |SOCKET| > |e.link.value| - 1 {
      // the slice below would be out of range
      assert e.link.value == SOCKET;
      return ret, true;
    }
    var inode := e.link.value[|SOCKET|..|e.link.value| - 1];
    if inode !in ret {
      ret := ret[inode := []];
    }
    var fd := ParseInt(e.name, TWO31);
    if fd.None? {
      return;
    }
    ret := ret[inode := ret[inode] + [Holder(pid, fd.value % TWO32)]];
  }

  function Appended(m: Index, key: string, more: seq<Holder>): (r: Index)
    ensures r.Keys == m.Keys + {key}
    ensures forall inode :: Get(r, inode) == if inode == key then Get(m, key) + more else Get(m, inode)
  {
    if key !in m then m[key := more] else m[key := m[key] + more]
  }

  /** The merge visits the keys of `add` in an order the map chooses; the result does not depend on it. */
  method UpdateMap(src: Index, add: Index) returns (ret: Index)
    ensures ret.Keys == src.Keys + add.Keys
    ensures forall inode :: Get(ret, inode) == Get(src, inode) + Get(add, inode)
  {
    ret := src;
    var left := add.Keys;
    while left != {}
      invariant left <= add.Keys
      invariant ret.Keys == src.Keys + (add.Keys - left)
      invariant forall inode :: Get(ret, inode) == Get(src, inode) + (if inode in left then [] else Get(add, inode))
    {
      var key :| key in left;
      ret := Appended(ret, key, add[key]);
      left := left - {key};
    }
  }

  /** How a scan ends: over all processes, at an error that is real, or at a link it cannot slice. */
  datatype ScanEnd = Finished | Error(err: int) | Panicked

  function EndOf(procs: seq<Proc>): ScanEnd {
    if procs == [] then Finished
    else if procs[0].dir.Fatal? then Error(procs[0].dir.err)
    else if !Readable(procs[0]) then Panicked
    else EndOf(procs[1..])
  }

  lemma {:induction false} FinishedExactly(procs: seq<Proc>)
    ensures EndOf(procs).Finished? <==> AllReadable(procs) && forall i :: 0 <= i < |procs| ==> !procs[i].dir.Fatal?
  {
    if procs != [] {
      FinishedExactly(procs[1..]);
      assert procs == [procs[0]] + procs[1..];
    }
  }

  /** A scan ends at the first process that is in error or has a bare link, with what that says. */
  lemma {:induction false} EndsAtFirst(procs: seq<Proc>, i: nat)
    requires i < |procs| && (procs[i].dir.Fatal? || !Readable(procs[i]))
    requires forall j :: 0 <= j < i ==> !procs[j].dir.Fatal? && Readable(procs[j])
    ensures EndOf(procs) == if procs[i].dir.Fatal? then Error(procs[i].dir.err) else Panicked
  {
    if i > 0 {
      assert !procs[0].dir.Fatal? && Readable(procs[0]);
      EndsAtFirst(procs[1..], i - 1);
    }
  }

  method GetProcInodesAll(procs: seq<Proc>) returns (ret: Index, end: ScanEnd)
    ensures end == EndOf(procs)
    ensures end.Finished? ==> AllReadable(procs) && IsIndexOf(ret, Scans(procs))
  {
    ret := map[];
    for i := 0 to |procs|
      invariant AllReadable(procs[..i]) && IsIndexOf(ret, Scans(procs[..i]))
      invariant EndOf(procs) == EndOf(procs[i..])
    {
      assert procs[i..][1..] == procs[i + 1..];
      var dir := procs[i].dir;
      if dir.Fatal? {
        return ret, Error(dir.err);
      }
      var t: Index := map[];
      if dir.Entries? {
        var panics;
        t, panics := GetProcInodes(procs[i].pid, dir.entries);
        if panics {
          return ret, Panicked;
        }
      }
      ghost var before := ret;
      ret := Merge(ret, t);
      ghost var scans := Scans(procs[..i + 1]);
      assert scans[..i] == Scans(procs[..i]) && scans[..i + 1] == scans;
      OneMoreScan(before, t, ret, scans, i);
    }
    assert procs[..|procs|] == procs;
    end := Finished;
  }

  lemma OneMoreScan(before: Index, t: Index, after: Index, scans: seq<Scan>, i: nat)
    requires i < |scans|
    requires IsIndexOf(before, scans[..i]) && IsIndexOfOne(t, scans[i].pid, scans[i].refs)
    requires forall inode :: inode in after <==> inode in before || inode in t
    requires forall inode :: Get(after, inode) == Get(before, inode) + Get(t, inode)
    ensures IsIndexOf(after, scans[..i + 1])
  {
    var more := scans[..i + 1];
    assert more[..i] == scans[..i] && more[i] == scans[i];
    forall inode ensures (inode in after <==> AnyLinked(more, inode)) && Get(after, inode) == Holders(more, inode) {
      assert Get(before, inode) == Holders(scans[..i], inode);
      assert Get(t, inode) == HoldersIn(scans[i].pid, scans[i].refs, inode);
    }
  }

  /** A process without sockets is skipped, which is merging nothing. */
  method Merge(src: Index, t: Index) returns (ret: Index)
    ensures forall inode :: inode in ret <==> inode in src || inode in t
    ensures forall inode :: Get(ret, inode) == Get(src, inode) + Get(t, inode)
  {
    if |t| == 0 {
      return src;
    }
    ret := UpdateMap(src, t);
  }

  /* ---- when the first owner may be read ---- */

  lemma {:induction false} HeldInExactlyByNumber(pid: int, refs: seq<Ref>, inode: string)
    ensures HoldersIn(pid, refs, inode) != [] <==> LinkedByNumber(refs, inode)
  {
    if refs != [] {
      HeldInExactlyByNumber(pid, refs[..|refs| - 1], inode);
    }
  }

  /** An inode has a holder exactly when some descriptor with a numeric name links to it. */
  lemma {:induction false} HeldExactlyByNumber(scans: seq<Scan>, inode: string)
    ensures Holders(scans, inode) != [] <==> AnyLinkedByNumber(scans, inode)
  {
    if scans != [] {
      var last := scans[|scans| - 1];
      HeldExactlyByNumber(scans[..|scans| - 1], inode);
      HeldInExactlyByNumber(last.pid, last.refs, inode);
    }
  }

  /** No list in the index is empty, so taking the first owner never fails. */
  ghost predicate OwnersDefined(index: Index) {
    forall inode :: inode in index ==> index[inode] != []
  }

  /**
   * The first-owner read is safe exactly when every linked inode is linked from at least one
   * numeric descriptor name; a single inode reachable only under an odd name breaks it.
   */
  lemma OwnersDefinedExactly(index: Index, scans: seq<Scan>)
    requires IsIndexOf(index, scans)
    ensures OwnersDefined(index) <==> forall inode :: AnyLinked(scans, inode) ==> AnyLinkedByNumber(scans, inode)
  {
    if OwnersDefined(index) {
      forall inode | AnyLinked(scans, inode) ensures AnyLinkedByNumber(scans, inode) {
        HeldExactlyByNumber(scans, inode);
        assert index[inode] == Get(index, inode);
      }
    } else {
      var inode :| inode in index && index[inode] == [];
      HeldExactlyByNumber(scans, inode);
      assert Get(index, inode) == [] && AnyLinked(scans, inode);
    }
  }

  /** The kernel names every descriptor by its decimal number. */
  ghost predicate DecimalName(e: FdEntry) {
    exists n: nat :: n < TWO31 && e.name == Decimal(n)
  }

  lemma DecimalNameIsNumber(e: FdEntry)
    requires LinkClosed(e) && DecimalName(e)
    ensures RefOf(e).Socket? ==> RefOf(e).fd.Some? && Decimal(RefOf(e).fd.value) == e.name
  {
    hide ParseInt, Decimal, HasPrefix;
    var n: nat :| n < TWO31 && e.name == Decimal(n);
    ParseIntOfDecimal(n, TWO31);
    assert ParseInt(e.name, TWO31) == Some(n) && n % TWO32 == n;
  }

  predicate AllNumbered(refs: seq<Ref>) {
    forall i :: 0 <= i < |refs| ==> refs[i].Socket? ==> refs[i].fd.Some?
  }

  lemma {:induction false} NumberedLinks(refs: seq<Ref>, inode: string)
    requires AllNumbered(refs)
    ensures Linked(refs, inode) <==> LinkedByNumber(refs, inode)
  {
    if refs != [] {
      NumberedLinks(refs[..|refs| - 1], inode);
    }
  }

  lemma {:induction false} AnyNumberedLinks(scans: seq<Scan>, inode: string)
    requires forall i :: 0 <= i < |scans| ==> AllNumbered(scans[i].refs)
    ensures AnyLinked(scans, inode) <==> AnyLinkedByNumber(scans, inode)
  {
    if scans != [] {
      AnyNumberedLinks(scans[..|scans| - 1], inode);
      NumberedLinks(scans[|scans| - 1].refs, inode);
    }
  }

  ghost predicate DecimalNames(dir: FdDir) {
    dir.Entries? ==> forall j :: 0 <= j < |dir.entries| ==> DecimalName(dir.entries[j])
  }

  lemma DecimalNamesAreNumbers(entries: seq<FdEntry>)
    requires LinksClosed(entries) && DecimalNames(Entries(entries))
    ensures AllNumbered(RefsOf(entries))
  {
    forall j | 0 <= j < |entries| ensures RefOf(entries[j]).Socket? ==> RefOf(entries[j]).fd.Some? {
      assert DecimalName(Entries(entries).entries[j]);
      DecimalNameIsNumber(entries[j]);
    }
  }

  /** With decimal descriptor names every linked inode has a first owner. */
  lemma DecimalNamesSuffice(index: Index, procs: seq<Proc>)
    requires AllReadable(procs) && IsIndexOf(index, Scans(procs))
    requires forall i :: 0 <= i < |procs| ==> DecimalNames(procs[i].dir)
    ensures OwnersDefined(index)
  {
    var scans := Scans(procs);
    forall i | 0 <= i < |scans| ensures AllNumbered(scans[i].refs) {
      assert DecimalNames(procs[i].dir);
      if procs[i].dir.Entries? {
        DecimalNamesAreNumbers(procs[i].dir.entries);
      }
    }
    forall inode ensures AnyLinked(scans, inode) ==> AnyLinkedByNumber(scans, inode) {
      AnyNumberedLinks(scans, inode);
    }
    OwnersDefinedExactly(index, scans);
  }

  /** The same holds for the index of a single process. */
  lemma OneProcessOwners(index: Index, pid: int, refs: seq<Ref>)
    requires IsIndexOfOne(index, pid, refs) && AllNumbered(refs)
    ensures OwnersDefined(index)
  {
    forall inode | inode in index ensures index[inode] != [] {
      NumberedLinks(refs, inode);
      HeldInExactlyByNumber(pid, refs, inode);
      assert Get(index, inode) == HoldersIn(pid, refs, inode);
    }
  }

  lemma {:induction false} HoldersInPairs(pid: int, refs: seq<Ref>, inode: string, h: Holder)
    ensures h in HoldersIn(pid, refs, inode) <==> h.pid == pid && Socket(inode, Some(h.fd)) in refs
  {
    if refs != [] {
      var n := |refs| - 1;
      HoldersInPairs(pid, refs[..n], inode, h);
      assert refs == refs[..n] + [refs[n]];
    }
  }

  /** Process `i` of the scan has the pid, and one of its descriptors links to the inode. */
  predicate HeldAt(scans: seq<Scan>, inode: string, h: Holder, i: nat) {
    i < |scans| && scans[i].pid == h.pid && Socket(inode, Some(h.fd)) in scans[i].refs
  }

  /** Read as a set, the holders in the merged index are exactly the (pid, descriptor) pairs linking to the inode. */
  lemma {:induction false} HoldersArePairs(scans: seq<Scan>, inode: string, h: Holder)
    ensures h in Holders(scans, inode) <==> exists i: nat :: HeldAt(scans, inode, h, i)
  {
    hide HoldersIn;
    if scans == [] {
      assert !exists i: nat :: HeldAt(scans, inode, h, i);
    } else {
      var n := |scans| - 1;
      HoldersArePairs(scans[..n], inode, h);
      HoldersInPairs(scans[n].pid, scans[n].refs, inode, h);
      if h in HoldersIn(scans[n].pid, scans[n].refs, inode) {
        assert HeldAt(scans, inode, h, n);
      }
      if exists i: nat :: HeldAt(scans[..n], inode, h, i) {
        var i: nat :| HeldAt(scans[..n], inode, h, i);
        assert HeldAt(scans, inode, h, i);
      }
      if exists i: nat :: HeldAt(scans, inode, h, i) {
        var i: nat :| HeldAt(scans, inode, h, i);
        assert i < n ==> HeldAt(scans[..n], inode, h, i);
      }
    }
  }

  /* ---- the first owner, in the directories themselves ---- */

  /** The descriptor's link is "socket:[", the inode and a closing character. */
  predicate LinksTo(e: FdEntry, inode: string) {
    e.link.Some? && |e.link.value| == |SOCKET| + |inode| + 1 && e.link.value[..|SOCKET| + |inode|] == SOCKET + inode
  }

  predicate NumberLinksTo(e: FdEntry, inode: string) {
    LinksTo(e, inode) && ParseInt(e.name, TWO31).Some?
  }

  lemma RefIsLink(e: FdEntry, inode: string)
    requires LinkClosed(e)
    ensures Links(RefOf(e), inode) <==> LinksTo(e, inode)
    ensures Links(RefOf(e), inode) ==> RefOf(e).fd.Some? == ParseInt(e.name, TWO31).Some?
    ensures NumberLinksTo(e, inode) ==> RefOf(e).fd == Some(ParseInt(e.name, TWO31).value % TWO32)
  {
    hide ParseInt;
    if e.link.Some? {
      var l := e.link.value;
      if HasPrefix(l, SOCKET) {
        SocketLinkLength(l);
        assert l[..|l| - 1] == l[..|SOCKET|] + l[|SOCKET|..|l| - 1];
        assert (SOCKET + l[|SOCKET|..|l| - 1])[|SOCKET|..] == l[|SOCKET|..|l| - 1];
        assert (SOCKET + inode)[|SOCKET|..] == inode;
      }
      if LinksTo(e, inode) {
        assert l[..|SOCKET|] == (SOCKET + inode)[..|SOCKET|];
      }
    }
  }

  /** Position `d` of process `p` is the first in the scan whose numeric name links to the inode. */
  predicate FirstLink(procs: seq<Proc>, inode: string, p: nat, d: nat) {
    && p < |procs| && procs[p].dir.Entries? && d < |procs[p].dir.entries|
    && NumberLinksTo(procs[p].dir.entries[d], inode)
    && (forall j :: 0 <= j < d ==> !NumberLinksTo(procs[p].dir.entries[j], inode))
    && (forall i, j :: 0 <= i < p && procs[i].dir.Entries? && 0 <= j < |procs[i].dir.entries| ==>
          !NumberLinksTo(procs[i].dir.entries[j], inode))
  }

  /** Some descriptor, whatever its name, links to the inode. */
  predicate SomeLink(procs: seq<Proc>, inode: string) {
    exists i, j :: 0 <= i < |procs| && procs[i].dir.Entries? && 0 <= j < |procs[i].dir.entries| && LinksTo(procs[i].dir.entries[j], inode)
  }

  lemma {:induction false} FirstHolderIn(pid: int, refs: seq<Ref>, inode: string) returns (d: nat)
    requires HoldersIn(pid, refs, inode) != []
    ensures d < |refs| && Links(refs[d], inode) && refs[d].fd.Some?
    ensures HoldersIn(pid, refs, inode)[0] == Holder(pid, refs[d].fd.value)
    ensures forall j :: 0 <= j < d ==> !(Links(refs[j], inode) && refs[j].fd.Some?)
  {
    var n := |refs| - 1;
    if HoldersIn(pid, refs[..n], inode) != [] {
      d := FirstHolderIn(pid, refs[..n], inode);
    } else {
      d := n;
      forall j | 0 <= j < n ensures !(Links(refs[j], inode) && refs[j].fd.Some?) {
        NoHolderIn(pid, refs[..n], inode, j);
      }
    }
  }

  lemma {:induction false} NoHolderIn(pid: int, refs: seq<Ref>, inode: string, j: nat)
    requires HoldersIn(pid, refs, inode) == [] && j < |refs|
    ensures !(Links(refs[j], inode) && refs[j].fd.Some?)
  {
    if j < |refs| - 1 {
      NoHolderIn(pid, refs[..|refs| - 1], inode, j);
    }
  }

  lemma {:induction false} FirstScan(scans: seq<Scan>, inode: string) returns (p: nat)
    requires Holders(scans, inode) != []
    ensures p < |scans| && HoldersIn(scans[p].pid, scans[p].refs, inode) != []
    ensures Holders(scans, inode)[0] == HoldersIn(scans[p].pid, scans[p].refs, inode)[0]
    ensures forall i :: 0 <= i < p ==> HoldersIn(scans[i].pid, scans[i].refs, inode) == []
  {
    hide HoldersIn;
    var n := |scans| - 1;
    if Holders(scans[..n], inode) != [] {
      p := FirstScan(scans[..n], inode);
    } else {
      p := n;
      forall i | 0 <= i < n ensures HoldersIn(scans[i].pid, scans[i].refs, inode) == [] {
        NoHolderBefore(scans[..n], inode, i);
      }
    }
  }

  lemma {:induction false} NoHolderBefore(scans: seq<Scan>, inode: string, i: nat)
    requires Holders(scans, inode) == [] && i < |scans|
    ensures HoldersIn(scans[i].pid, scans[i].refs, inode) == []
  {
    if i < |scans| - 1 {
      NoHolderBefore(scans[..|scans| - 1], inode, i);
    }
  }

  /** The first holder of an inode is the first numeric link of the first process that has one. */
  lemma FirstHolderIsFirstLink(procs: seq<Proc>, inode: string) returns (p: nat, d: nat)
    requires AllReadable(procs) && Holders(Scans(procs), inode) != []
    ensures FirstLink(procs, inode, p, d)
    ensures Holders(Scans(procs), inode)[0]
         == Holder(procs[p].pid, ParseInt(procs[p].dir.entries[d].name, TWO31).value % TWO32)
  {
    hide Holders, HoldersIn, LinksTo, ParseInt, RefOf;
    var scans := Scans(procs);
    p := FirstScan(scans, inode);
    d := FirstHolderIn(scans[p].pid, scans[p].refs, inode);
    assert procs[p].dir.Entries? by {
      NothingHeld(scans[p].pid, inode);
    }
    forall j | 0 <= j <= d
      ensures NumberLinksTo(procs[p].dir.entries[j], inode) <==> Links(scans[p].refs[j], inode) && scans[p].refs[j].fd.Some?
    {
      RefIsLink(procs[p].dir.entries[j], inode);
    }
    RefIsLink(procs[p].dir.entries[d], inode);
    forall i, j | 0 <= i < p && procs[i].dir.Entries? && 0 <= j < |procs[i].dir.entries|
      ensures !NumberLinksTo(procs[i].dir.entries[j], inode)
    {
      NoHolderIn(scans[i].pid, scans[i].refs, inode, j);
      RefIsLink(procs[i].dir.entries[j], inode);
    }
  }

  lemma NothingHeld(pid: int, inode: string)
    ensures HoldersIn(pid, [], inode) == []
  {
  }

  lemma {:induction false} LinkedExactly(refs: seq<Ref>, inode: string)
    ensures Linked(refs, inode) <==> exists j :: 0 <= j < |refs| && Links(refs[j], inode)
  {
    if refs != [] {
      var n := |refs| - 1;
      LinkedExactly(refs[..n], inode);
      if j :| 0 <= j < n && Links(refs[..n][j], inode) {
        assert Links(refs[j], inode);
      }
      if j :| 0 <= j < |refs| && Links(refs[j], inode) {
        assert j < n ==> Links(refs[..n][j], inode);
      }
    }
  }

  lemma {:induction false} AnyLinkedExactly(scans: seq<Scan>, inode: string)
    ensures AnyLinked(scans, inode) <==> exists i :: 0 <= i < |scans| && Linked(scans[i].refs, inode)
  {
    if scans != [] {
      var n := |scans| - 1;
      AnyLinkedExactly(scans[..n], inode);
      if i :| 0 <= i < n && Linked(scans[..n][i].refs, inode) {
        assert Linked(scans[i].refs, inode);
      }
      if i :| 0 <= i < |scans| && Linked(scans[i].refs, inode) {
        assert i < n ==> Linked(scans[..n][i].refs, inode);
      }
    }
  }

  /** An inode is in the index of a scan exactly when some descriptor links to it. */
  lemma IndexedExactly(procs: seq<Proc>, inode: string)
    requires AllReadable(procs)
    ensures AnyLinked(Scans(procs), inode) <==> SomeLink(procs, inode)
  {
    hide Linked, AnyLinked, Links, LinksTo, RefOf;
    var scans := Scans(procs);
    AnyLinkedExactly(scans, inode);
    forall i | 0 <= i < |procs|
      ensures Linked(scans[i].refs, inode) <==>
              procs[i].dir.Entries? && exists j :: 0 <= j < |procs[i].dir.entries| && LinksTo(procs[i].dir.entries[j], inode)
    {
      LinkedExactly(scans[i].refs, inode);
      if procs[i].dir.Entries? {
        forall j | 0 <= j < |scans[i].refs| ensures Links(scans[i].refs[j], inode) <==> LinksTo(procs[i].dir.entries[j], inode) {
          RefIsLink(procs[i].dir.entries[j], inode);
        }
      }
    }
  }

  /** The index of one process is that of a scan over it alone. */
  lemma OneProcessIsScan(index: Index, pid: int, entries: seq<FdEntry>)
    requires LinksClosed(entries) && IsIndexOfOne(index, pid, RefsOf(entries))
    ensures AllReadable([Proc(pid, Entries(entries))]) && IsIndexOf(index, Scans([Proc(pid, Entries(entries))]))
  {
    var procs := [Proc(pid, Entries(entries))];
    var scans := Scans(procs);
    assert scans[..0] == [] && scans[0] == Scan(pid, RefsOf(entries));
    forall inode ensures AnyLinked(scans, inode) == Linked(RefsOf(entries), inode) && Holders(scans, inode) == HoldersIn(pid, RefsOf(entries), inode) {
      assert Holders(scans[..0], inode) == [];
    }
  }
}
