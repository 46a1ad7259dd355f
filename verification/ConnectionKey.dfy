/** The text key by which the connection listing recognises duplicates. */
module ConnectionKey {
  import opened Text
  import opened SocketAddress

  /** An address as shown to callers: the IP (or socket path) as text. */
  datatype Addr = Addr(ip: string, port: nat)

  datatype Conn = Conn(fd: nat, family: Family, sockType: nat, laddr: Addr, raddr: Addr, status: string,
                       pid: int, inode: string)

  /* ---- the key, as formatted ---- */

  function Dash(a: string, b: string): string {
    a + "-" + b
  }

  function HostPort(a: Addr): string {
    a.ip + ":" + Decimal(a.port)
  }

  function InetKey(c: Conn): string {
    Dash(Decimal(c.sockType), Dash(HostPort(c.laddr), Dash(HostPort(c.raddr), c.status)))
  }

  function Key(c: Conn): string {
    if c.family == UNIX then Dash(DecimalInt(c.pid), Dash(Decimal(c.fd), Dash(c.inode, InetKey(c))))
    else InetKey(c)
  }

  /* ---- what the key stands for ---- */

  datatype Identity =
    | InetId(sockType: nat, laddr: Addr, raddr: Addr, status: string)
    | UnixId(pid: int, fd: nat, inode: string, sockType: nat, path: string)

  function IdentityOf(c: Conn): Identity {
    if c.family == UNIX then UnixId(c.pid, c.fd, c.inode, c.sockType, c.laddr.ip)
    else InetId(c.sockType, c.laddr, c.raddr, c.status)
  }

  /** The shape of the rows the listing builds; a unix path may hold any characters. */
  predicate WellFormed(c: Conn) {
    if c.family == UNIX then
      '-' !in c.inode && c.laddr.port == 0 && c.raddr == Addr("", 0) && c.status == "NONE"
    else
      '-' !in c.laddr.ip && '-' !in c.raddr.ip && '-' !in c.status
  }

  /* ---- injectivity ---- */

  lemma DashInjective(a: string, x: string, b: string, y: string)
    requires '-' !in a && '-' !in b && Dash(a, x) == Dash(b, y)
    ensures a == b && x == y
  {
    IndexOfConcat(a, '-', x);
    IndexOfConcat(b, '-', y);
    assert a == Dash(a, x)[..|a|] && b == Dash(b, y)[..|a|];
    assert x == Dash(a, x)[|a| + 1..] && y == Dash(b, y)[|a| + 1..];
  }

  lemma DigitsOnly(n: nat)
    ensures '-' !in Decimal(n) && ':' !in Decimal(n)
  {
  }

  lemma HostPortInjective(a: Addr, b: Addr)
    requires HostPort(a) == HostPort(b)
    ensures a == b
  {
    DigitsOnly(a.port);
    DigitsOnly(b.port);
    LastIndexOfConcat(a.ip, ':', Decimal(a.port));
    LastIndexOfConcat(b.ip, ':', Decimal(b.port));
    assert a.ip == HostPort(a)[..|a.ip|] && b.ip == HostPort(b)[..|a.ip|];
    assert Decimal(a.port) == HostPort(a)[|a.ip| + 1..] && Decimal(b.port) == HostPort(b)[|a.ip| + 1..];
    DecimalInjective(a.port, b.port);
  }

  lemma HostPortDash(a: Addr)
    requires '-' !in a.ip
    ensures '-' !in HostPort(a)
  {
    DigitsOnly(a.port);
  }

  /** A leading sign cannot be mistaken for a separator. */
  lemma PidInjective(p: int, x: string, q: int, y: string)
    requires Dash(DecimalInt(p), x) == Dash(DecimalInt(q), y)
    ensures p == q && x == y
  {
    var s := Dash(DecimalInt(p), x);
    var m, n := if p < 0 then -p else p, if q < 0 then -q else q;
    DigitsOnly(m);
    DigitsOnly(n);
    assert p < 0 <==> s[0] == '-' by {
      if p >= 0 { assert IsDigit(Decimal(p)[0]) && s[0] == Decimal(p)[0]; }
    }
    assert q < 0 <==> s[0] == '-' by {
      if q >= 0 { assert IsDigit(Decimal(q)[0]) && Dash(DecimalInt(q), y)[0] == Decimal(q)[0]; }
    }
    if p < 0 {
      assert s[1..] == Dash(Decimal(m), x);
      assert Dash(DecimalInt(q), y)[1..] == Dash(Decimal(n), y);
    }
    DashInjective(Decimal(m), x, Decimal(n), y);
    DecimalInjective(m, n);
  }

  lemma InetKeyInjective(c: Conn, d: Conn)
    requires InetKey(c) == InetKey(d)
    requires '-' !in c.laddr.ip && '-' !in c.raddr.ip && '-' !in d.laddr.ip && '-' !in d.raddr.ip
    ensures c.sockType == d.sockType && c.laddr == d.laddr && c.raddr == d.raddr && c.status == d.status
  {
    DigitsOnly(c.sockType);
    DigitsOnly(d.sockType);
    HostPortDash(c.laddr);
    HostPortDash(d.laddr);
    HostPortDash(c.raddr);
    HostPortDash(d.raddr);
    var c2, d2 := Dash(HostPort(c.raddr), c.status), Dash(HostPort(d.raddr), d.status);
    var c1, d1 := Dash(HostPort(c.laddr), c2), Dash(HostPort(d.laddr), d2);
    DashInjective(Decimal(c.sockType), c1, Decimal(d.sockType), d1);
    DashInjective(HostPort(c.laddr), c2, HostPort(d.laddr), d2);
    DashInjective(HostPort(c.raddr), c.status, HostPort(d.raddr), d.status);
    DecimalInjective(c.sockType, d.sockType);
    HostPortInjective(c.laddr, d.laddr);
    HostPortInjective(c.raddr, d.raddr);
  }

  /** Whatever the paths contain: what follows a path is the same in every unix key. */
  lemma UnixKeyInjective(c: Conn, d: Conn)
    requires c.family == UNIX && d.family == UNIX && WellFormed(c) && WellFormed(d)
    requires Key(c) == Key(d)
    ensures IdentityOf(c) == IdentityOf(d)
  {
    var c1, d1 := Dash(c.inode, InetKey(c)), Dash(d.inode, InetKey(d));
    PidInjective(c.pid, Dash(Decimal(c.fd), c1), d.pid, Dash(Decimal(d.fd), d1));
    DigitsOnly(c.fd);
    DigitsOnly(d.fd);
    DashInjective(Decimal(c.fd), c1, Decimal(d.fd), d1);
    DecimalInjective(c.fd, d.fd);
    DashInjective(c.inode, InetKey(c), d.inode, InetKey(d));
    var tail := Dash(HostPort(Addr("", 0)), "NONE");
    DigitsOnly(c.sockType);
    DigitsOnly(d.sockType);
    DashInjective(Decimal(c.sockType), Dash(HostPort(c.laddr), tail), Decimal(d.sockType), Dash(HostPort(d.laddr), tail));
    DecimalInjective(c.sockType, d.sockType);
    SameSuffix(HostPort(c.laddr), HostPort(d.laddr), tail);
    HostPortInjective(c.laddr, d.laddr);
  }

  lemma SameSuffix(a: string, b: string, tail: string)
    requires Dash(a, tail) == Dash(b, tail)
    ensures a == b
  {
    var s := Dash(a, tail);
    assert |a| == |b| && a == s[..|a|] && b == Dash(b, tail)[..|a|];
  }

  function Dashes(s: string): nat {
    multiset(s)['-']
  }

  lemma DashesOfDash(a: string, b: string)
    ensures Dashes(Dash(a, b)) == Dashes(a) + 1 + Dashes(b)
  {
    assert multiset(Dash(a, b)) == multiset(a) + multiset("-") + multiset(b);
  }

  /** An inet key has three dashes, a unix key at least six. */
  lemma FamiliesNeverMeet(c: Conn, d: Conn)
    requires c.family != UNIX && d.family == UNIX && WellFormed(c)
    ensures Key(c) != Key(d)
  {
    InetKeyDashes(c);
    InetKeyDashes(d);
    DigitsOnly(c.sockType);
    HostPortDash(c.laddr);
    HostPortDash(c.raddr);
    var d1 := Dash(d.inode, InetKey(d));
    DashesOfDash(DecimalInt(d.pid), Dash(Decimal(d.fd), d1));
    DashesOfDash(Decimal(d.fd), d1);
    DashesOfDash(d.inode, InetKey(d));
  }

  lemma InetKeyDashes(c: Conn)
    ensures Dashes(InetKey(c)) == 3 + Dashes(Decimal(c.sockType)) + Dashes(HostPort(c.laddr))
                                    + Dashes(HostPort(c.raddr)) + Dashes(c.status)
  {
    var c2 := Dash(HostPort(c.raddr), c.status);
    DashesOfDash(Decimal(c.sockType), Dash(HostPort(c.laddr), c2));
    DashesOfDash(HostPort(c.laddr), c2);
    DashesOfDash(HostPort(c.raddr), c.status);
  }

  /** Two rows share a key exactly when they are the same connection. */
  lemma KeyIsIdentity(c: Conn, d: Conn)
    requires WellFormed(c) && WellFormed(d)
    ensures Key(c) == Key(d) <==> IdentityOf(c) == IdentityOf(d)
  {
    if Key(c) == Key(d) {
      if c.family != UNIX && d.family == UNIX {
        FamiliesNeverMeet(c, d);
      } else if c.family == UNIX && d.family != UNIX {
        FamiliesNeverMeet(d, c);
      } else if c.family == UNIX {
        UnixKeyInjective(c, d);
      } else {
        InetKeyInjective(c, d);
      }
    }
  }

  /** A unix socket as the listing builds it. */
  function UnixConn(pid: int, fd: nat, inode: string, sockType: nat, path: string): Conn {
    Conn(fd, UNIX, sockType, Addr(path, 0), Addr("", 0), "NONE", pid, inode)
  }

  /** Some sockets with these two inodes are different and have one key. */
  ghost predicate Collide(i: string, j: string) {
    exists pid, fd: nat, t: nat, p, pid', fd': nat, u: nat, q :: SameKey(UnixConn(pid, fd, i, t, p), UnixConn(pid', fd', j, u, q))
  }

  predicate SameKey(c: Conn, d: Conn) {
    Key(c) == Key(d) && IdentityOf(c) != IdentityOf(d)
  }

  /** Up to its dash, `longer` starts with `shorter`, a dash, a whole number and its dash. */
  predicate ExtendsBy(longer: string, shorter: string, t: nat) {
    HasPrefix(longer + "-", shorter + "-" + Decimal(t) + "-")
  }

  ghost predicate Extends(longer: string, shorter: string) {
    exists t: nat :: ExtendsBy(longer, shorter, t)
  }

  lemma HostPortBehind(a: string, path: string)
    ensures HostPort(Addr(a + path, 0)) == a + HostPort(Addr(path, 0))
  {
    assert a + path + ":" + Decimal(0) == a + (path + ":" + Decimal(0));
  }

  /** What follows the inode in the key of a unix socket. */
  function Tail(t: nat, path: string): string {
    Dash(Decimal(t), Dash(HostPort(Addr(path, 0)), Dash(HostPort(Addr("", 0)), "NONE")))
  }

  lemma KeyOfUnix(pid: int, fd: nat, inode: string, t: nat, path: string)
    ensures Key(UnixConn(pid, fd, inode, t, path)) == Dash(DecimalInt(pid), Dash(Decimal(fd), Dash(inode, Tail(t, path))))
  {
    hide Decimal, DecimalInt, HostPort, Dash;
  }

  lemma KeysMeetAtInode(pid: int, fd: nat, i: string, t: nat, p: string, pid': int, fd': nat, j: string, u: nat, q: string)
    requires Key(UnixConn(pid, fd, i, t, p)) == Key(UnixConn(pid', fd', j, u, q))
    ensures pid == pid' && fd == fd' && Dash(i, Tail(t, p)) == Dash(j, Tail(u, q))
  {
    hide Key, Tail, DecimalInt, Decimal, Dash;
    KeyOfUnix(pid, fd, i, t, p);
    KeyOfUnix(pid', fd', j, u, q);
    PidInjective(pid, Dash(Decimal(fd), Dash(i, Tail(t, p))), pid', Dash(Decimal(fd'), Dash(j, Tail(u, q))));
    DigitsOnly(fd);
    DigitsOnly(fd');
    DashInjective(Decimal(fd), Dash(i, Tail(t, p)), Decimal(fd'), Dash(j, Tail(u, q)));
    DecimalInjective(fd, fd');
  }

  lemma TailInjective(t: nat, p: string, u: nat, q: string)
    requires Tail(t, p) == Tail(u, q)
    ensures t == u && p == q
  {
    hide Decimal, Dash, HostPort;
    var tail := Dash(HostPort(Addr("", 0)), "NONE");
    DigitsOnly(t);
    DigitsOnly(u);
    DashInjective(Decimal(t), Dash(HostPort(Addr(p, 0)), tail), Decimal(u), Dash(HostPort(Addr(q, 0)), tail));
    DecimalInjective(t, u);
    SameSuffix(HostPort(Addr(p, 0)), HostPort(Addr(q, 0)), tail);
    HostPortInjective(Addr(p, 0), Addr(q, 0));
  }

  /** The dash behind the longer inode cannot stand among the digits of the other socket's type. */
  lemma LongerExtends(i: string, t: nat, x: string, j: string, y: string)
    requires |i| < |j| && Dash(i, Dash(Decimal(t), x)) == Dash(j, y)
    ensures ExtendsBy(j, i, t)
  {
    var d, s := Decimal(t), Dash(j, y);
    DigitsOnly(t);
    hide Decimal;
    assert s == Dash(i, Dash(d, x));
    var head := i + "-" + d + "-";
    assert s == head + x && s == j + "-" + y;
    assert s[|j|] == '-';
    assert forall k :: |i| + 1 <= k < |i| + 1 + |d| ==> s[k] == d[k - |i| - 1];
    assert j + "-" == s[..|j| + 1] && head == s[..|head|];
    assert (j + "-")[..|head|] == head;
  }

  lemma CollidingExtends(i: string, j: string)
    requires Collide(i, j)
    ensures Extends(j, i) || Extends(i, j)
  {
    hide Key, IdentityOf, ExtendsBy;
    var pid, fd: nat, t: nat, p, pid', fd': nat, u: nat, q :| SameKey(UnixConn(pid, fd, i, t, p), UnixConn(pid', fd', j, u, q));
    SameKeyExtends(pid, fd, i, t, p, pid', fd', j, u, q);
  }

  lemma SameKeyExtends(pid: int, fd: nat, i: string, t: nat, p: string, pid': int, fd': nat, j: string, u: nat, q: string)
    requires SameKey(UnixConn(pid, fd, i, t, p), UnixConn(pid', fd', j, u, q))
    ensures ExtendsBy(j, i, t) || ExtendsBy(i, j, u)
  {
    hide Key, ExtendsBy, Tail, Dash;
    KeysMeetAtInode(pid, fd, i, t, p, pid', fd', j, u, q);
    TailParts(t, p);
    TailParts(u, q);
    if |i| < |j| {
      LongerExtends(i, t, TailBehind(p), j, Tail(u, q));
    } else if |j| < |i| {
      LongerExtends(j, u, TailBehind(q), i, Tail(t, p));
    } else {
      SameInode(i, Tail(t, p), j, Tail(u, q));
      TailInjective(t, p, u, q);
    }
  }

  function TailBehind(path: string): string {
    Dash(HostPort(Addr(path, 0)), Dash(HostPort(Addr("", 0)), "NONE"))
  }

  lemma TailParts(t: nat, path: string)
    ensures Tail(t, path) == Dash(Decimal(t), TailBehind(path))
  {
    hide Decimal, Dash, HostPort;
  }

  lemma SameInode(i: string, x: string, j: string, y: string)
    requires |i| == |j| && Dash(i, x) == Dash(j, y)
    ensures i == j && x == y
  {
    assert i == Dash(i, x)[..|i|] && j == Dash(j, y)[..|j|];
    assert x == Dash(i, x)[|i| + 1..] && y == Dash(j, y)[|j| + 1..];
  }

  /** The path that makes the shorter inode's socket look like one of the longer inode. */
  function Borrowed(longer: string, shorter: string, t: nat, u: nat, path: string): string
    requires ExtendsBy(longer, shorter, t)
  {
    (longer + "-")[|shorter + "-" + Decimal(t) + "-"|..] + Decimal(u) + "-" + path
  }

  /**
   * With an inode that extends another by a whole number the key no longer tells sockets apart: any
   * socket of the longer inode has the key of one of the shorter, whose path starts with the rest.
   */
  lemma DashedInodeCollides(pid: int, fd: nat, longer: string, shorter: string, t: nat, u: nat, path: string)
    requires ExtendsBy(longer, shorter, t)
    ensures SameKey(UnixConn(pid, fd, shorter, t, Borrowed(longer, shorter, t, u, path)), UnixConn(pid, fd, longer, u, path))
  {
    hide Key, Decimal, DecimalInt, Tail, Dash;
    var p := Borrowed(longer, shorter, t, u, path);
    KeyOfUnix(pid, fd, shorter, t, p);
    KeyOfUnix(pid, fd, longer, u, path);
    BorrowedTail(longer, shorter, t, u, path);
    var head := shorter + "-" + Decimal(t) + "-";
    assert |(longer + "-")[..|head|]| == |head|;
    assert |shorter| < |longer|;
  }

  lemma BorrowedTail(longer: string, shorter: string, t: nat, u: nat, path: string)
    requires ExtendsBy(longer, shorter, t)
    ensures Dash(shorter, Tail(t, Borrowed(longer, shorter, t, u, path))) == Dash(longer, Tail(u, path))
  {
    hide Decimal, HostPort;
    var head := shorter + "-" + Decimal(t) + "-";
    var r := (longer + "-")[|head|..];
    var front := r + Decimal(u) + "-";
    var end := "-" + Dash(HostPort(Addr("", 0)), "NONE");
    var pp := HostPort(Addr(path, 0));
    HostPortBehind(front, path);
    assert Borrowed(longer, shorter, t, u, path) == front + path;
    assert longer + "-" == head + r;
    calc {
      Dash(shorter, Tail(t, front + path));
      head + (front + pp) + end;
      (head + r) + (Decimal(u) + "-" + pp + end);
      longer + "-" + (Decimal(u) + "-" + pp + end);
      Dash(longer, Tail(u, path));
    }
  }

  /** Sockets with these inodes can collide exactly when one inode extends the other by a whole number. */
  lemma CollideExactly(i: string, j: string)
    ensures Collide(i, j) <==> Extends(i, j) || Extends(j, i)
  {
    hide SameKey, ExtendsBy;
    if Collide(i, j) {
      CollidingExtends(i, j);
    }
    if Extends(j, i) {
      var t: nat :| ExtendsBy(j, i, t);
      DashedInodeCollides(0, 0, j, i, t, 0, "");
    }
    if Extends(i, j) {
      var t: nat :| ExtendsBy(i, j, t);
      DashedInodeCollides(0, 0, i, j, t, 0, "");
      SameKeySwapped(UnixConn(0, 0, j, t, Borrowed(i, j, t, 0, "")), UnixConn(0, 0, i, 0, ""));
    }
  }

  lemma SameKeySwapped(c: Conn, d: Conn)
    ensures SameKey(c, d) <==> SameKey(d, c)
  {
  }

  /** Without a dash in either no two inodes extend each other, so decimal inodes never collide. */
  lemma PlainInodesNeverCollide(i: string, j: string)
    requires '-' !in i && '-' !in j
    ensures !Collide(i, j)
  {
    hide SameKey;
    CollideExactly(i, j);
    forall t: nat ensures !ExtendsBy(i, j, t) && !ExtendsBy(j, i, t) {
      PlainNeverExtends(i, j, t);
      PlainNeverExtends(j, i, t);
    }
  }

  lemma PlainNeverExtends(longer: string, shorter: string, t: nat)
    requires '-' !in longer
    ensures !ExtendsBy(longer, shorter, t)
  {
    hide Decimal;
    var head := shorter + "-" + Decimal(t) + "-";
    assert head[|shorter|] == '-' && |shorter| + 1 < |head|;
    PrefixAt(longer + "-", head, |shorter|);
  }
}
