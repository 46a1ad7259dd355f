/** NFS statistics from the output of `nfsstat` on AIX: rows of names, each followed by a row of values. */
module Nfsstat {
  import opened Text

  /* ---- the counters ---- */

  datatype RPCServer = RPCServer(calls: nat, badcalls: nat, nullrecv: nat, badlen: nat, xdrcall: nat, dupchecks: nat, dupreqs: nat)

  datatype RPCClient = RPCClient(calls: nat, badcalls: nat, badxids: nat, timeouts: nat, newcreds: nat, badverfs: nat,
                                 timers: nat, nomem: nat, cantconn: nat, interrupts: nat, retrans: nat, cantsend: nat)

  datatype NFSServer = NFSServer(calls: nat, badcalls: nat, publicV2: nat, publicV3: nat)

  datatype NFSClient = NFSClient(calls: nat, badcalls: nat, clgets: nat, cltoomany: nat)

  type Operations = map<string, nat>

  datatype Stats = Stats(rpcServer: RPCServer, rpcClient: RPCClient, nfsServer: NFSServer, nfsClient: NFSClient,
                         serverOps: Operations, clientOps: Operations)

  const ZERO := Stats(RPCServer(0, 0, 0, 0, 0, 0, 0), RPCClient(0, 0, 0, 0, 0, 0, 0, 0, 0, 0, 0, 0),
                      NFSServer(0, 0, 0, 0), NFSClient(0, 0, 0, 0), map[], map[])

  function SetRPCServer(s: RPCServer, name: string, v: nat): RPCServer {
    match name
    case "calls" => s.(calls := Add64(s.calls, v))
    case "badcalls" => s.(badcalls := Add64(s.badcalls, v))
    case "nullrecv" => s.(nullrecv := Add64(s.nullrecv, v))
    case "badlen" => s.(badlen := Add64(s.badlen, v))
    case "xdrcall" => s.(xdrcall := Add64(s.xdrcall, v))
    case "dupchecks" => s.(dupchecks := Add64(s.dupchecks, v))
    case "dupreqs" => s.(dupreqs := Add64(s.dupreqs, v))
    case _ => s
  }

  function SetRPCClient(s: RPCClient, name: string, v: nat): RPCClient {
    match name
    case "calls" => s.(calls := Add64(s.calls, v))
    case "badcalls" => s.(badcalls := Add64(s.badcalls, v))
    case "badxids" => s.(badxids := Add64(s.badxids, v))
    case "timeouts" => s.(timeouts := Add64(s.timeouts, v))
    case "newcreds" => s.(newcreds := Add64(s.newcreds, v))
    case "badverfs" => s.(badverfs := Add64(s.badverfs, v))
    case "timers" => s.(timers := Add64(s.timers, v))
    case "nomem" => s.(nomem := Add64(s.nomem, v))
    case "cantconn" => s.(cantconn := Add64(s.cantconn, v))
    case "interrupts" => s.(interrupts := Add64(s.interrupts, v))
    case "retrans" => s.(retrans := Add64(s.retrans, v))
    case "cantsend" => s.(cantsend := Add64(s.cantsend, v))
    case _ => s
  }

  function SetNFSServer(s: NFSServer, name: string, v: nat): NFSServer {
    match name
    case "calls" => s.(calls := Add64(s.calls, v))
    case "badcalls" => s.(badcalls := Add64(s.badcalls, v))
    case "public_v2" => s.(publicV2 := Add64(s.publicV2, v))
    case "public_v3" => s.(publicV3 := Add64(s.publicV3, v))
    case _ => s
  }

  function SetNFSClient(s: NFSClient, name: string, v: nat): NFSClient {
    match name
    case "calls" => s.(calls := Add64(s.calls, v))
    case "badcalls" => s.(badcalls := Add64(s.badcalls, v))
    case "clgets" => s.(clgets := Add64(s.clgets, v))
    case "cltoomany" => s.(cltoomany := Add64(s.cltoomany, v))
    case _ => s
  }

  datatype Section = NoSection | ServerRPC | ServerNFS | ClientRPC | ClientNFS

  function SetCounter(s: Stats, section: Section, name: string, v: nat): Stats {
    match section
    case ServerRPC => s.(rpcServer := SetRPCServer(s.rpcServer, name, v))
    case ClientRPC => s.(rpcClient := SetRPCClient(s.rpcClient, name, v))
    case ServerNFS => s.(nfsServer := SetNFSServer(s.nfsServer, name, v))
    case ClientNFS => s.(nfsClient := SetNFSClient(s.nfsClient, name, v))
    case NoSection => s
  }

  /** The counter a column of a section stands for. */
  function Counter(s: Stats, section: Section, name: string): Option<nat> {
    match section
    case NoSection => None
    case ServerRPC => (
      match name
      case "calls" => Some(s.rpcServer.calls)
      case "badcalls" => Some(s.rpcServer.badcalls)
      case "nullrecv" => Some(s.rpcServer.nullrecv)
      case "badlen" => Some(s.rpcServer.badlen)
      case "xdrcall" => Some(s.rpcServer.xdrcall)
      case "dupchecks" => Some(s.rpcServer.dupchecks)
      case "dupreqs" => Some(s.rpcServer.dupreqs)
      case _ => None)
    case ClientRPC => (
      match name
      case "calls" => Some(s.rpcClient.calls)
      case "badcalls" => Some(s.rpcClient.badcalls)
      case "badxids" => Some(s.rpcClient.badxids)
      case "timeouts" => Some(s.rpcClient.timeouts)
      case "newcreds" => Some(s.rpcClient.newcreds)
      case "badverfs" => Some(s.rpcClient.badverfs)
      case "timers" => Some(s.rpcClient.timers)
      case "nomem" => Some(s.rpcClient.nomem)
      case "cantconn" => Some(s.rpcClient.cantconn)
      case "interrupts" => Some(s.rpcClient.interrupts)
      case "retrans" => Some(s.rpcClient.retrans)
      case "cantsend" => Some(s.rpcClient.cantsend)
      case _ => None)
    case ServerNFS => (
      match name
      case "calls" => Some(s.nfsServer.calls)
      case "badcalls" => Some(s.nfsServer.badcalls)
      case "public_v2" => Some(s.nfsServer.publicV2)
      case "public_v3" => Some(s.nfsServer.publicV3)
      case _ => None)
    case ClientNFS => (
      match name
      case "calls" => Some(s.nfsClient.calls)
      case "badcalls" => Some(s.nfsClient.badcalls)
      case "clgets" => Some(s.nfsClient.clgets)
      case "cltoomany" => Some(s.nfsClient.cltoomany)
      case _ => None)
  }

  /** Adding under a column changes that counter alone. */
  lemma SetCounterMeaning(s: Stats, section: Section, name: string, v: nat, other: Section, column: string)
    ensures var c := Counter(s, other, column);
            Counter(SetCounter(s, section, name, v), other, column) ==
              if c.Some? && section == other && name == column then Some(Add64(c.value, v)) else c
  {
  }

  /* ---- lines ---- */

  datatype Line =
    | Blank
    | SectionLine(section: Section)
    | Transport
    | Version(version: string)
    | Names(names: seq<string>)
    | Values(values: seq<string>, percent: bool)

  predicate IsNumericField(s: string) {
    ParseUint64(TrimSuffix(s, "%")).Some?
  }

  /** The number in a field; errors are ignored. */
  function ParseUint(s: string): (v: nat)
    ensures v < TWO64
  {
    ParseUintIgnoringError(TrimSpace(TrimSuffix(s, "%")))
  }

  lemma {:induction false} ValueGrows(s: string, n: nat)
    requires AllDigits(s) && n <= |s|
    ensures AllDigits(s[..n]) && Value(s[..n]) <= Value(s)
    decreases |s|
  {
    if n == |s| {
      assert s[..n] == s;
    } else {
      ValueGrows(s[..|s| - 1], n);
      assert s[..|s| - 1][..n] == s[..n];
    }
  }

  /** The first `n` characters are digits of a number beyond 64 bits, so reading stops there. */
  predicate OverflowsAt(s: string, n: nat) {
    n <= |s| && AllDigits(s[..n]) && Value(s[..n]) >= TWO64
  }

  /** A field that is no 64-bit number counts as 0 exactly when it overflows nowhere, and as 2^64-1 otherwise. */
  lemma ZeroOnErrorExactly(s: string)
    requires ParseUint64(TrimSpace(TrimSuffix(s, "%"))).None?
    ensures ParseUint(s) == 0 <==> forall n: nat :: !OverflowsAt(TrimSpace(TrimSuffix(s, "%")), n)
    ensures ParseUint(s) == 0 || ParseUint(s) == TWO64 - 1
  {
    hide TrimSpace, TrimSuffix;
    var t := TrimSpace(TrimSuffix(s, "%"));
    var d := LeadingDigits(t);
    if Value(d) >= TWO64 {
      assert t[..|d|] == d && OverflowsAt(t, |d|);
    } else {
      forall n: nat ensures !OverflowsAt(t, n) {
        if n <= |t| && AllDigits(t[..n]) {
          DigitsLead(t, n);
          ValueGrows(d, n);
        }
      }
    }
  }

  /** A prefix of digits lies within the leading digits. */
  lemma DigitsLead(s: string, n: nat)
    requires n <= |s| && AllDigits(s[..n])
    ensures n <= |LeadingDigits(s)| && s[..n] == LeadingDigits(s)[..n]
  {
    assert forall k :: 0 <= k < n ==> s[..n][k] == s[k];
  }

  /** So a number is read back when it fits, and counts as the largest number when it does not. */
  lemma NumberReadBack(n: nat)
    ensures ParseUint(Decimal(n)) == if n < TWO64 then n else TWO64 - 1
  {
    hide Decimal, Value, TrimSpace;
    var d := Decimal(n);
    assert IsDigit(d[0]) && IsDigit(d[|d| - 1]);
    TrimSpaceOfPlain(d);
    assert TrimSuffix(d, "%") == d by {
      assert d[|d| - 1..][0] != '%';
    }
    ValueOfDecimal(n);
    assert LeadingDigits(d) == d;
  }

  function Classify(raw: string): Line {
    var line := TrimSpace(raw);
    if line == "" then Blank
    else if Contains(line, "Server rpc:") then SectionLine(ServerRPC)
    else if Contains(line, "Server nfs:") then SectionLine(ServerNFS)
    else if Contains(line, "Client rpc:") then SectionLine(ClientRPC)
    else if Contains(line, "Client nfs:") then SectionLine(ClientNFS)
    else if Contains(line, "Connection oriented") || Contains(line, "Connectionless") then Transport
    else if HasPrefix(line, "Version 2") then Version("v2")
    else if HasPrefix(line, "Version 3") then Version("v3")
    else
      var fields := Fields(line);
      if fields == [] then Blank
      else if !IsNumericField(fields[0]) then Names(fields)
      else Values(fields, Contains(line, "%"))
  }

  /** A line that is not blank has a first field, so the guard for a line without fields never decides. */
  lemma NonBlankHasFields(raw: string)
    requires TrimSpace(raw) != ""
    ensures Fields(TrimSpace(raw)) != []
  {
    TrimmedStart(raw);
    var line := TrimSpace(raw);
    assert !IsSpace(line[0]);
  }

  lemma TrimmedStart(s: string)
    ensures TrimSpace(s) != "" ==> !IsSpace(TrimSpace(s)[0])
  {
    TrimLeftStart(s);
    TrimRightPrefix(TrimLeft(s, IsSpace));
  }

  lemma {:induction false} TrimLeftStart(s: string)
    ensures TrimLeft(s, IsSpace) != "" ==> !IsSpace(TrimLeft(s, IsSpace)[0])
  {
    if s != "" && IsSpace(s[0]) {
      TrimLeftStart(s[1..]);
    }
  }

  lemma {:induction false} TrimRightPrefix(s: string)
    ensures TrimRight(s, IsSpace) <= s
  {
    if s != "" && IsSpace(s[|s| - 1]) {
      TrimRightPrefix(s[..|s| - 1]);
    }
  }

  function ClassifyAll(raws: seq<string>): (r: seq<Line>)
    ensures |r| == |raws| && forall i :: 0 <= i < |r| ==> r[i] == Classify(raws[i])
  {
    seq(|raws|, i requires 0 <= i < |raws| => Classify(raws[i]))
  }

  /* ---- applying a row of values ---- */

  function NamedValues(s: Stats, section: Section, names: seq<string>, values: seq<string>): Stats
    decreases |names|
  {
    if names == [] || values == [] then s
    else NamedValues(SetCounter(s, section, names[0], ParseUint(values[0])), section, names[1..], values[1..])
  }

  function OpKey(version: string, name: string): string {
    if version == "" then name else version + "_" + name
  }

  /** Counts stand at every other token, each followed by its percentage. */
  function OperationCounts(ops: Operations, version: string, names: seq<string>, fields: seq<string>): Operations
    decreases |names|
  {
    if names == [] || fields == [] then ops
    else OperationCounts(ops[OpKey(version, names[0]) := ParseUint(fields[0])], version, names[1..],
                         if |fields| >= 2 then fields[2..] else [])
  }

  /** The tokens from the count of operation `i` on. */
  function FieldsFrom(fields: seq<string>, i: nat): seq<string> {
    if 2 * i <= |fields| then fields[2 * i..] else []
  }

  lemma OneOperation(ops: Operations, version: string, names: seq<string>, fields: seq<string>, i: nat)
    requires i < |names| && 2 * i < |fields|
    ensures OperationCounts(ops, version, names[i..], FieldsFrom(fields, i))
         == OperationCounts(ops[OpKey(version, names[i]) := ParseUint(fields[2 * i])], version, names[i + 1..], FieldsFrom(fields, i + 1))
  {
    var rest := fields[2 * i..];
    assert names[i..][1..] == names[i + 1..];
    assert (if |rest| >= 2 then rest[2..] else []) == FieldsFrom(fields, i + 1);
  }

  lemma NoOperationsLeft(ops: Operations, version: string, names: seq<string>, fields: seq<string>, i: nat)
    requires i <= |names| && (i == |names| || 2 * i >= |fields|)
    ensures OperationCounts(ops, version, names[i..], FieldsFrom(fields, i)) == ops
  {
  }

  datatype Pair = Pair(section: Section, version: string, names: seq<string>, values: seq<string>, percent: bool)

  function Apply(s: Stats, p: Pair): Stats {
    if p.percent then
      match p.section
      case ServerNFS => s.(serverOps := OperationCounts(s.serverOps, p.version, p.names, p.values))
      case ClientNFS => s.(clientOps := OperationCounts(s.clientOps, p.version, p.names, p.values))
      case _ => s
    else NamedValues(s, p.section, p.names, p.values)
  }

  function ApplyAll(s: Stats, pairs: seq<Pair>): Stats {
    if pairs == [] then s else Apply(ApplyAll(s, pairs[..|pairs| - 1]), pairs[|pairs| - 1])
  }

  /* ---- which rows form pairs, from the lines alone ---- */

  /** The section in force after the lines: that of the last section line. */
  function SectionAfter(lines: seq<Line>): Section {
    if lines == [] then NoSection
    else
      var l := lines[|lines| - 1];
      if l.SectionLine? then l.section else SectionAfter(lines[..|lines| - 1])
  }

  /** The version in force: that of the last version line since the last section line. */
  function VersionAfter(lines: seq<Line>): string {
    if lines == [] then ""
    else
      var l := lines[|lines| - 1];
      if l.Version? then l.version else if l.SectionLine? then "" else VersionAfter(lines[..|lines| - 1])
  }

  /** Values pair with names exactly when they stand on the very next line. */
  function Pairs(lines: seq<Line>): seq<Pair> {
    if |lines| < 2 then []
    else
      var n := |lines| - 1;
      Pairs(lines[..n])
      + if lines[n - 1].Names? && lines[n].Values? then
          [Pair(SectionAfter(lines[..n]), VersionAfter(lines[..n]), lines[n - 1].names, lines[n].values, lines[n].percent)]
        else []
  }

  /* ---- the parser ---- */

  /** The counters, filled in place. */
  class StatsStat {
    var stats: Stats

    constructor ()
      ensures stats == ZERO
    {
      stats := ZERO;
    }

    method ApplyNamedValues(section: Section, names: seq<string>, values: seq<string>)
      modifies this
      ensures stats == NamedValues(old(stats), section, names, values)
    {
      var i := 0;
      while i < |names|
        invariant 0 <= i <= |names| && i <= |values|
        invariant NamedValues(old(stats), section, names, values) == NamedValues(stats, section, names[i..], values[i..])
      {
        if i >= |values| {
          break;
        }
        assert names[i..][1..] == names[i + 1..] && values[i..][1..] == values[i + 1..];
        stats := SetCounter(stats, section, names[i], ParseUint(values[i]));
        i := i + 1;
      }
    }

    method ApplyOperationCounts(section: Section, version: string, names: seq<string>, fields: seq<string>)
      modifies this
      ensures stats == Apply(old(stats), Pair(section, version, names, fields, true))
    {
      var ops: Operations;
      if section == ServerNFS {
        ops := stats.serverOps;
      } else if section == ClientNFS {
        ops := stats.clientOps;
      } else {
        return;
      }
      ops := FillOperations(ops, version, names, fields);
      if section == ServerNFS {
        stats := stats.(serverOps := ops);
      } else {
        stats := stats.(clientOps := ops);
      }
    }

    static method FillOperations(was: Operations, version: string, names: seq<string>, fields: seq<string>) returns (ops: Operations)
      ensures ops == OperationCounts(was, version, names, fields)
    {
      hide OperationCounts, ParseUint;
      ops := was;
      var i := 0;
      assert names[0..] == names && FieldsFrom(fields, 0) == fields;
      while i < |names|
        invariant 0 <= i <= |names|
        invariant OperationCounts(was, version, names, fields) == OperationCounts(ops, version, names[i..], FieldsFrom(fields, i))
      {
        var countIdx := i * 2;
        if countIdx >= |fields| {
          break;
        }
        OneOperation(ops, version, names, fields, i);
        var key := names[i];
        if version != "" {
          key := version + "_" + names[i];
        }
        ops := ops[key := ParseUint(fields[countIdx])];
        i := i + 1;
      }
      NoOperationsLeft(ops, version, names, fields, i);
    }

    /** The whole output of the command. */
    method ParseOutput(output: string)
      modifies this
      ensures stats == ApplyAll(old(stats), Pairs(ClassifyAll(SplitOn(output, '\n'))))
    {
      ParseNfsstat(ClassifyAll(SplitOn(output, '\n')));
    }

    /** A run over the lines changes the counters as the pairs of adjacent rows do, and in no other way. */
    method ParseNfsstat(lines: seq<Line>)
      modifies this
      ensures stats == ApplyAll(old(stats), Pairs(lines))
    {
      var section, nfsVersion, pendingNames: Option<seq<string>> := NoSection, "", None;
      for i := 0 to |lines|
        invariant section == SectionAfter(lines[..i]) && nfsVersion == VersionAfter(lines[..i])
        invariant pendingNames == if i > 0 && lines[i - 1].Names? then Some(lines[i - 1].names) else None
        invariant stats == ApplyAll(old(stats), Pairs(lines[..i]))
      {
        PairsStep(old(stats), lines, i);
        match lines[i] {
          case Blank => pendingNames := None;
          case SectionLine(s) => section, nfsVersion, pendingNames := s, "", None;
          case Transport => pendingNames := None;
          case Version(v) => nfsVersion, pendingNames := v, None;
          case Names(fields) => pendingNames := Some(fields);
          case Values(fields, percent) =>
            if pendingNames.Some? {
              if percent {
                ApplyOperationCounts(section, nfsVersion, pendingNames.value, fields);
              } else {
                ApplyNamedValues(section, pendingNames.value, fields);
              }
              pendingNames := None;
            }
        }
      }
      assert lines[..|lines|] == lines;
    }
  }

  lemma PairsStep(s: Stats, lines: seq<Line>, i: nat)
    requires i < |lines|
    ensures SectionAfter(lines[..i + 1]) == if lines[i].SectionLine? then lines[i].section else SectionAfter(lines[..i])
    ensures VersionAfter(lines[..i + 1]) ==
              if lines[i].Version? then lines[i].version else if lines[i].SectionLine? then "" else VersionAfter(lines[..i])
    ensures ApplyAll(s, Pairs(lines[..i + 1])) ==
              if i > 0 && lines[i - 1].Names? && lines[i].Values? then
                Apply(ApplyAll(s, Pairs(lines[..i])),
                      Pair(SectionAfter(lines[..i]), VersionAfter(lines[..i]), lines[i - 1].names, lines[i].values, lines[i].percent))
              else ApplyAll(s, Pairs(lines[..i]))
  {
    var more, some := lines[..i + 1], lines[..i];
    assert more[..i] == some && more[i] == lines[i];
    if i > 0 {
      assert more[i - 1] == lines[i - 1];
      if lines[i - 1].Names? && lines[i].Values? {
        var p := Pair(SectionAfter(some), VersionAfter(some), lines[i - 1].names, lines[i].values, lines[i].percent);
        assert Pairs(more) == Pairs(some) + [p];
        assert (Pairs(some) + [p])[..|Pairs(some)|] == Pairs(some);
      } else {
        assert Pairs(more) == Pairs(some);
      }
    }
  }

  /* ---- what a counter holds ---- */

  /** The values under a column name in one pair of rows. */
  function ColumnSum(names: seq<string>, values: seq<string>, column: string): nat {
    if names == [] || values == [] then 0
    else (if names[0] == column then ParseUint(values[0]) else 0) + ColumnSum(names[1..], values[1..], column)
  }

  function CounterSum(pairs: seq<Pair>, section: Section, column: string): nat {
    if pairs == [] then 0
    else
      var p := pairs[|pairs| - 1];
      CounterSum(pairs[..|pairs| - 1], section, column) + PairSum(p, section, column)
  }

  /** What a pair adds to a counter. */
  function PairSum(p: Pair, section: Section, column: string): nat {
    if p.section == section && !p.percent then ColumnSum(p.names, p.values, column) else 0
  }

  lemma Add64Twice(a: nat, b: nat, c: nat)
    ensures Add64(Add64(a, b), c) == Add64(a, b + c)
  {
    var q := (a + b) / TWO64;
    assert (a + b) % TWO64 == a + b - q * TWO64;
    ModShift(a + b + c, q);
  }

  lemma Add64Nothing(c: nat)
    requires c < TWO64
    ensures Add64(c, 0) == c
  {
  }

  lemma {:induction false} NamedValuesMeaning(s: Stats, section: Section, names: seq<string>, values: seq<string>,
                                              other: Section, column: string, c: nat)
    requires Counter(s, other, column) == Some(c) && c < TWO64
    ensures Counter(NamedValues(s, section, names, values), other, column) ==
              Some(Add64(c, if section == other then ColumnSum(names, values, column) else 0))
    decreases |names|
  {
    hide Counter, SetCounter, ParseUint, Add64;
    Add64Nothing(c);
    if names != [] && values != [] {
      var v := ParseUint(values[0]);
      var hit := section == other && names[0] == column;
      SetCounterMeaning(s, section, names[0], v, other, column);
      NamedValuesMeaning(SetCounter(s, section, names[0], v), section, names[1..], values[1..], other, column,
                         if hit then Add64(c, v) else c);
      if hit {
        Add64Twice(c, v, ColumnSum(names[1..], values[1..], column));
      }
    }
  }

  lemma OperationsKeepCounters(s: Stats, p: Pair, section: Section, column: string)
    requires p.percent
    ensures Counter(Apply(s, p), section, column) == Counter(s, section, column)
  {
    hide OperationCounts;
  }

  lemma OnePairMeaning(s: Stats, p: Pair, section: Section, column: string, c: nat)
    requires Counter(s, section, column) == Some(c) && c < TWO64
    ensures Counter(Apply(s, p), section, column) == Some(Add64(c, PairSum(p, section, column)))
  {
    hide Counter, ColumnSum, OperationCounts;
    if p.percent {
      OperationsKeepCounters(s, p, section, column);
    } else {
      NamedValuesMeaning(s, p.section, p.names, p.values, section, column, c);
    }
  }

  /** Every counter is the sum, over the pairs of its section, of the values under its name. */
  lemma {:induction false} CounterMeaning(s: Stats, pairs: seq<Pair>, section: Section, column: string)
    requires Counter(s, section, column).Some? && Counter(s, section, column).value < TWO64
    ensures Counter(ApplyAll(s, pairs), section, column) ==
              Some(Add64(Counter(s, section, column).value, CounterSum(pairs, section, column)))
  {
    if pairs == [] {
      Add64Nothing(Counter(s, section, column).value);
    } else {
      hide Counter, Add64, PairSum, Apply;
      var rest, p := pairs[..|pairs| - 1], pairs[|pairs| - 1];
      CounterMeaning(s, rest, section, column);
      var start, sum := Counter(s, section, column).value, CounterSum(rest, section, column);
      OnePairMeaning(ApplyAll(s, rest), p, section, column, Add64(start, sum));
      Add64Twice(start, sum, PairSum(p, section, column));
    }
  }

  /* ---- the layout of the columns does not matter ---- */

  /** Splitting a pair of rows into two pairs adds the same values. */
  lemma {:induction false} SplitColumns(n1: seq<string>, v1: seq<string>, n2: seq<string>, v2: seq<string>, column: string)
    requires |n1| == |v1|
    ensures ColumnSum(n1 + n2, v1 + v2, column) == ColumnSum(n1, v1, column) + ColumnSum(n2, v2, column)
  {
    if n1 == [] {
      assert n1 + n2 == n2 && v1 + v2 == v2;
    } else {
      SplitColumns(n1[1..], v1[1..], n2, v2, column);
      assert (n1 + n2)[1..] == n1[1..] + n2 && (v1 + v2)[1..] == v1[1..] + v2;
    }
  }

  datatype Column = Column(name: string, value: string)

  function NamesOf(cols: seq<Column>): (r: seq<string>)
    ensures |r| == |cols| && forall i :: 0 <= i < |r| ==> r[i] == cols[i].name
  {
    seq(|cols|, i requires 0 <= i < |cols| => cols[i].name)
  }

  function ValuesOf(cols: seq<Column>): (r: seq<string>)
    ensures |r| == |cols| && forall i :: 0 <= i < |r| ==> r[i] == cols[i].value
  {
    seq(|cols|, i requires 0 <= i < |cols| => cols[i].value)
  }

  function SumOf(cols: seq<Column>, column: string): nat {
    ColumnSum(NamesOf(cols), ValuesOf(cols), column)
  }

  function Weight(c: Column, column: string): nat {
    if c.name == column then ParseUint(c.value) else 0
  }

  function Total(cols: seq<Column>, weight: Column -> nat): nat {
    if cols == [] then 0 else weight(cols[0]) + Total(cols[1..], weight)
  }

  lemma {:induction false} SumOfIsTotal(cols: seq<Column>, column: string)
    ensures SumOf(cols, column) == Total(cols, c => Weight(c, column))
  {
    if cols != [] {
      SumOfIsTotal(cols[1..], column);
      assert NamesOf(cols)[1..] == NamesOf(cols[1..]) && ValuesOf(cols)[1..] == ValuesOf(cols[1..]);
    }
  }

  lemma {:induction false} TotalWithout(cols: seq<Column>, i: nat, weight: Column -> nat)
    requires i < |cols|
    ensures Total(cols, weight) == weight(cols[i]) + Total(cols[..i] + cols[i + 1..], weight)
  {
    if i == 0 {
      assert cols[..0] + cols[1..] == cols[1..];
    } else {
      TotalWithout(cols[1..], i - 1, weight);
      var rest := cols[..i] + cols[i + 1..];
      assert rest[1..] == cols[1..][..i - 1] + cols[1..][i..];
    }
  }

  lemma Cancel(x: Column, m: multiset<Column>, n: multiset<Column>)
    requires multiset{x} + m == multiset{x} + n
    ensures m == n
  {
    forall y ensures m[y] == n[y] {
      assert (multiset{x} + m)[y] == multiset{x}[y] + m[y];
      assert (multiset{x} + n)[y] == multiset{x}[y] + n[y];
    }
  }

  lemma {:induction false} TotalOfPermutation(a: seq<Column>, b: seq<Column>, weight: Column -> nat)
    requires multiset(a) == multiset(b)
    ensures Total(a, weight) == Total(b, weight)
    decreases |a|
  {
    if a == [] {
      assert |multiset(b)| == 0;
    } else {
      assert a[0] in multiset(b);
      var i :| 0 <= i < |b| && b[i] == a[0];
      var rest := b[..i] + b[i + 1..];
      assert a == [a[0]] + a[1..] && b == b[..i] + [a[0]] + b[i + 1..];
      assert multiset(a) == multiset{a[0]} + multiset(a[1..]);
      assert multiset(b) == multiset(b[..i]) + multiset{a[0]} + multiset(b[i + 1..]);
      assert multiset(rest) == multiset(b[..i]) + multiset(b[i + 1..]);
      assert multiset{a[0]} + multiset(a[1..]) == multiset{a[0]} + multiset(rest);
      Cancel(a[0], multiset(a[1..]), multiset(rest));
      TotalWithout(b, i, weight);
      TotalOfPermutation(a[1..], rest, weight);
    }
  }

  /** Reordering the columns of a pair of rows changes no counter. */
  lemma ReorderColumns(a: seq<Column>, b: seq<Column>, column: string)
    requires multiset(a) == multiset(b)
    ensures SumOf(a, column) == SumOf(b, column)
  {
    SumOfIsTotal(a, column);
    SumOfIsTotal(b, column);
    TotalOfPermutation(a, b, c => Weight(c, column));
  }

  lemma {:induction false} CounterSumConcat(a: seq<Pair>, b: seq<Pair>, section: Section, column: string)
    ensures CounterSum(a + b, section, column) == CounterSum(a, section, column) + CounterSum(b, section, column)
  {
    if b == [] {
      assert a + b == a;
    } else {
      var n := |b| - 1;
      CounterSumConcat(a, b[..n], section, column);
      assert (a + b)[..|a| + n] == a + b[..n];
    }
  }

  function RowPair(section: Section, version: string, cols: seq<Column>): Pair {
    Pair(section, version, NamesOf(cols), ValuesOf(cols), false)
  }

  lemma RowPairSum(section: Section, version: string, cols: seq<Column>, other: Section, column: string)
    ensures CounterSum([RowPair(section, version, cols)], other, column) == if section == other then SumOf(cols, column) else 0
  {
    var p := RowPair(section, version, cols);
    assert [p][..0] == [];
  }

  /**
   * Wherever a pair of rows stands in the output, replacing it by two pairs over any split of any
   * reordering of its columns changes no counter.
   */
  lemma LayoutDoesNotMatter(s: Stats, before: seq<Pair>, after: seq<Pair>, section: Section, version: string,
                            cols: seq<Column>, left: seq<Column>, right: seq<Column>, other: Section, column: string)
    requires multiset(cols) == multiset(left + right)
    requires Counter(s, other, column).Some? && Counter(s, other, column).value < TWO64
    ensures Counter(ApplyAll(s, before + [RowPair(section, version, cols)] + after), other, column)
         == Counter(ApplyAll(s, before + [RowPair(section, version, left), RowPair(section, version, right)] + after), other, column)
  {
    hide *;
    var one, l, r := RowPair(section, version, cols), RowPair(section, version, left), RowPair(section, version, right);
    CounterMeaning(s, before + [one] + after, other, column);
    CounterMeaning(s, before + [l, r] + after, other, column);
    CounterSumConcat(before + [one], after, other, column);
    CounterSumConcat(before, [one], other, column);
    CounterSumConcat(before + [l, r], after, other, column);
    CounterSumConcat(before, [l, r], other, column);
    CounterSumConcat([l], [r], other, column);
    assert [l, r] == [l] + [r];
    RowPairSum(section, version, cols, other, column);
    RowPairSum(section, version, left, other, column);
    RowPairSum(section, version, right, other, column);
    ReorderColumns(cols, left + right, column);
    SumOfConcat(left, right, column);
  }

  lemma SumOfConcat(a: seq<Column>, b: seq<Column>, column: string)
    ensures SumOf(a + b, column) == SumOf(a, column) + SumOf(b, column)
  {
    assert NamesOf(a + b) == NamesOf(a) + NamesOf(b) && ValuesOf(a + b) == ValuesOf(a) + ValuesOf(b);
    SplitColumns(NamesOf(a), ValuesOf(a), NamesOf(b), ValuesOf(b), column);
  }

  /* ---- operations of different versions ---- */

  predicate KeyOfVersion(key: string, version: string) {
    HasPrefix(key, version + "_")
  }

  lemma {:induction false} OperationCountsKeepOthers(ops: Operations, version: string, other: string,
                                                     names: seq<string>, fields: seq<string>, key: string)
    requires {version, other} == {"v2", "v3"} && KeyOfVersion(key, other)
    ensures key in OperationCounts(ops, version, names, fields) <==> key in ops
    ensures key in ops ==> OperationCounts(ops, version, names, fields)[key] == ops[key]
    decreases |names|
  {
    if names != [] && fields != [] {
      var k := OpKey(version, names[0]);
      assert key != k by {
        assert version == "v2" || version == "v3";
        assert key[..3] == other + "_" && k[..3] == version + "_";
        assert key[..3][1] != k[..3][1];
      }
      OperationCountsKeepOthers(ops[k := ParseUint(fields[0])], version, other, names[1..],
                                if |fields| >= 2 then fields[2..] else [], key);
    }
  }

  /** The pairs that are not operation rows of a version. */
  function Without(pairs: seq<Pair>, version: string): seq<Pair> {
    if pairs == [] then []
    else
      var p := pairs[|pairs| - 1];
      Without(pairs[..|pairs| - 1], version) + if p.percent && p.version == version then [] else [p]
  }

  ghost predicate SameFor(a: Operations, b: Operations, version: string) {
    forall key :: KeyOfVersion(key, version) ==> (key in a <==> key in b) && (key in a ==> a[key] == b[key])
  }

  lemma {:induction false} OperationCountsAgree(a: Operations, b: Operations, version: string,
                                                own: string, names: seq<string>, fields: seq<string>)
    requires SameFor(a, b, version)
    ensures SameFor(OperationCounts(a, own, names, fields), OperationCounts(b, own, names, fields), version)
    decreases |names|
  {
    if names != [] && fields != [] {
      var k, v := OpKey(own, names[0]), ParseUint(fields[0]);
      OperationCountsAgree(a[k := v], b[k := v], version, own, names[1..], if |fields| >= 2 then fields[2..] else []);
    }
  }

  lemma {:induction false} NamedValuesKeepOps(s: Stats, section: Section, names: seq<string>, values: seq<string>)
    ensures NamedValues(s, section, names, values).serverOps == s.serverOps
    ensures NamedValues(s, section, names, values).clientOps == s.clientOps
    decreases |names|
  {
    if names != [] && values != [] {
      NamedValuesKeepOps(SetCounter(s, section, names[0], ParseUint(values[0])), section, names[1..], values[1..]);
    }
  }

  ghost predicate SameOps(a: Stats, b: Stats, version: string) {
    SameFor(a.serverOps, b.serverOps, version) && SameFor(a.clientOps, b.clientOps, version)
  }

  /** An operations row of the other version leaves this version's operations alone. */
  lemma OtherVersionKeeps(s: Stats, p: Pair, version: string, other: string)
    requires {version, other} == {"v2", "v3"} && p.percent && p.version == other
    ensures SameOps(Apply(s, p), s, version)
  {
    OtherOperationsKept(s.serverOps, p, version, other);
    OtherOperationsKept(s.clientOps, p, version, other);
  }

  lemma OtherOperationsKept(ops: Operations, p: Pair, version: string, other: string)
    requires {version, other} == {"v2", "v3"}
    ensures SameFor(OperationCounts(ops, other, p.names, p.values), ops, version)
  {
    var after := OperationCounts(ops, other, p.names, p.values);
    forall key | KeyOfVersion(key, version)
      ensures (key in after <==> key in ops) && (key in after ==> after[key] == ops[key])
    {
      OperationCountsKeepOthers(ops, other, version, p.names, p.values, key);
    }
  }

  lemma ApplyAgrees(a: Stats, b: Stats, p: Pair, version: string)
    requires SameOps(a, b, version)
    ensures SameOps(Apply(a, p), Apply(b, p), version)
  {
    OperationCountsAgree(a.serverOps, b.serverOps, version, p.version, p.names, p.values);
    OperationCountsAgree(a.clientOps, b.clientOps, version, p.version, p.names, p.values);
    NamedValuesKeepOps(a, p.section, p.names, p.values);
    NamedValuesKeepOps(b, p.section, p.names, p.values);
  }

  /** Over any output, the operations of one version are what they would be without the other version's rows. */
  lemma {:induction false} VersionsAreIndependent(s: Stats, pairs: seq<Pair>, version: string, other: string)
    requires {version, other} == {"v2", "v3"}
    ensures SameOps(ApplyAll(s, pairs), ApplyAll(s, Without(pairs, other)), version)
  {
    if pairs != [] {
      var rest, p := pairs[..|pairs| - 1], pairs[|pairs| - 1];
      var w := Without(rest, other);
      VersionsAreIndependent(s, rest, version, other);
      if p.percent && p.version == other {
        OtherVersionKeeps(ApplyAll(s, rest), p, version, other);
        assert Without(pairs, other) == w;
      } else {
        ApplyAgrees(ApplyAll(s, rest), ApplyAll(s, w), p, version);
        assert (w + [p])[..|w|] == w;
      }
    }
  }

  /* ---- what an operation holds ---- */

  /** Column `i` of a pair of operation rows has a count, filed under `key`. */
  predicate Naming(p: Pair, key: string, i: nat) {
    i < |p.names| && 2 * i < |p.values| && OpKey(p.version, p.names[i]) == key
  }

  /** The last of the first `n` columns that is filed under `key`. */
  function LastColumn(p: Pair, key: string, n: nat): (r: Option<nat>)
    ensures r.Some? ==> r.value < n && Naming(p, key, r.value) && forall i :: r.value < i < n ==> !Naming(p, key, i)
    ensures r.None? ==> forall i :: 0 <= i < n ==> !Naming(p, key, i)
  {
    if n == 0 then None else if Naming(p, key, n - 1) then Some(n - 1) else LastColumn(p, key, n - 1)
  }

  function CountIn(p: Pair, key: string): Option<nat> {
    var i := LastColumn(p, key, |p.names|);
    if i.None? then None else Some(ParseUint(p.values[2 * i.value]))
  }

  function Tail(p: Pair): Pair {
    p.(names := if p.names == [] then [] else p.names[1..], values := if |p.values| >= 2 then p.values[2..] else [])
  }

  /** The count under a key is that of a later column, or else that of the first. */
  lemma CountInTail(p: Pair, key: string)
    requires p.names != [] && p.values != []
    ensures CountIn(p, key) ==
              if CountIn(Tail(p), key).Some? then CountIn(Tail(p), key)
              else if OpKey(p.version, p.names[0]) == key then Some(ParseUint(p.values[0]))
              else None
  {
    hide ParseUint, OpKey;
    var t := Tail(p);
    forall i: nat ensures Naming(t, key, i) <==> Naming(p, key, i + 1) {
      if i < |t.names| {
        assert t.names[i] == p.names[i + 1];
      }
    }
    var r := LastColumn(t, key, |t.names|);
    var q := LastColumn(p, key, |p.names|);
    if r.Some? {
      assert Naming(p, key, r.value + 1);
      assert q.Some? && q.value >= 1 && Naming(t, key, q.value - 1);
      assert q.value == r.value + 1;
      assert t.values[2 * r.value] == p.values[2 * q.value];
    } else {
      forall j: nat | 0 < j ensures !Naming(p, key, j) {
        assert !Naming(t, key, j - 1);
      }
      assert Naming(p, key, 0) <==> q.Some?;
    }
  }

  lemma {:induction false} OperationCountsMeaning(ops: Operations, p: Pair, key: string)
    ensures var after := OperationCounts(ops, p.version, p.names, p.values);
            if CountIn(p, key).Some? then key in after && after[key] == CountIn(p, key).value
            else (key in after <==> key in ops) && (key in ops ==> after[key] == ops[key])
    decreases |p.names|
  {
    if p.names == [] || p.values == [] {
      var i := LastColumn(p, key, |p.names|);
      assert i.Some? ==> Naming(p, key, i.value);
    } else {
      hide ParseUint, OpKey, CountIn;
      CountInTail(p, key);
      OperationCountsMeaning(ops[OpKey(p.version, p.names[0]) := ParseUint(p.values[0])], Tail(p), key);
    }
  }

  predicate IsOperations(section: Section) { section == ServerNFS || section == ClientNFS }

  function OpsOf(s: Stats, section: Section): Operations {
    if section == ServerNFS then s.serverOps else s.clientOps
  }

  /** The count of the last pair of operation rows of a section that names an operation. */
  function LastCount(pairs: seq<Pair>, section: Section, key: string): Option<nat> {
    if pairs == [] then None
    else
      var p := pairs[|pairs| - 1];
      if p.percent && p.section == section && CountIn(p, key).Some? then CountIn(p, key)
      else LastCount(pairs[..|pairs| - 1], section, key)
  }

  /** Every operation holds the count of the last rows of its section that name it. */
  lemma {:induction false} OperationMeaning(s: Stats, pairs: seq<Pair>, section: Section, key: string)
    requires IsOperations(section)
    ensures var before, after := OpsOf(s, section), OpsOf(ApplyAll(s, pairs), section);
            var count := LastCount(pairs, section, key);
            if count.Some? then key in after && after[key] == count.value
            else (key in after <==> key in before) && (key in before ==> after[key] == before[key])
  {
    if pairs != [] {
      hide OperationCounts, NamedValues, CountIn;
      var rest, p := pairs[..|pairs| - 1], pairs[|pairs| - 1];
      var now := ApplyAll(s, rest);
      OperationMeaning(s, rest, section, key);
      if p.percent {
        OperationCountsMeaning(OpsOf(now, section), p, key);
      } else {
        NamedValuesKeepOps(now, p.section, p.names, p.values);
      }
    }
  }

  /** Among versioned rows a key belongs to one version and one operation. */
  lemma OpKeyExactly(v: string, n: string, w: string, m: string)
    requires v in ["v2", "v3"] && w in ["v2", "v3"]
    ensures OpKey(v, n) == OpKey(w, m) <==> v == w && n == m
  {
    if OpKey(v, n) == OpKey(w, m) {
      assert OpKey(v, n)[..3] == v + "_" && OpKey(w, m)[..3] == w + "_";
      assert OpKey(v, n)[3..] == n && OpKey(w, m)[3..] == m;
      assert (v + "_")[1] == v[1] && (w + "_")[1] == w[1];
    }
  }

  /** So a versioned row counts for an operation exactly when it is of that version and names it. */
  lemma CountInExactly(p: Pair, v: string, n: string)
    requires v in ["v2", "v3"] && p.version in ["v2", "v3"]
    ensures CountIn(p, OpKey(v, n)).Some? <==>
            p.version == v && exists i :: 0 <= i < |p.names| && 2 * i < |p.values| && p.names[i] == n
  {
    hide OpKey, ParseUint;
    forall i: nat | i < |p.names| ensures OpKey(p.version, p.names[i]) == OpKey(v, n) <==> p.version == v && p.names[i] == n {
      OpKeyExactly(p.version, p.names[i], v, n);
    }
    if p.version == v && exists i :: 0 <= i < |p.names| && 2 * i < |p.values| && p.names[i] == n {
      var i :| 0 <= i < |p.names| && 2 * i < |p.values| && p.names[i] == n;
      assert Naming(p, OpKey(v, n), i);
    }
  }

  /* ---- protocol versions other than 2 and 3 ---- */

  predicate NoSectionWords(line: string) {
    && !Contains(line, "Server rpc:") && !Contains(line, "Server nfs:") && !Contains(line, "Client rpc:")
    && !Contains(line, "Client nfs:") && !Contains(line, "Connection oriented") && !Contains(line, "Connectionless")
  }

  /** A heading of some protocol version. */
  predicate IsHeading(raw: string) {
    HasPrefix(TrimSpace(raw), "Version ") && NoSectionWords(TrimSpace(raw))
  }

  predicate IsKnownVersion(line: string) {
    HasPrefix(line, "Version 2") || HasPrefix(line, "Version 3")
  }

  /** A version heading is recognised exactly when the version is 2 or 3; any other is taken for a row of names. */
  lemma HeadingRecognised(raw: string)
    requires IsHeading(raw)
    ensures Classify(raw).Version? <==> IsKnownVersion(TrimSpace(raw))
    ensures !Classify(raw).Version? ==> Classify(raw) == Names(Fields(TrimSpace(raw)))
  {
    var line := TrimSpace(raw);
    if !IsKnownVersion(line) {
      var word := Fields(line)[0];
      assert line[..8][0] == 'V' && !IsSpace(line[0]);
      assert word[0] == 'V';
      var number := TrimSuffix(word, "%");
      assert number[0] == 'V' && !IsDigit(number[0]);
    }
  }

  /** The version a heading names: the whole number behind the word. */
  function NamedVersion(raw: string): string
    requires IsHeading(raw)
  {
    "v" + LeadingDigits(TrimSpace(raw)[8..])
  }

  /** The heading names version 2 or 3, and not one whose number only starts with such a digit. */
  predicate NamesTwoOrThree(raw: string)
    requires IsHeading(raw)
  {
    NamedVersion(raw) == "v2" || NamedVersion(raw) == "v3"
  }

  /** The last heading since the last section line. */
  function HeadingAfter(raws: seq<string>): (r: Option<string>)
    ensures r.Some? ==> IsHeading(r.value)
  {
    if raws == [] then None
    else
      var raw := raws[|raws| - 1];
      if IsHeading(raw) then Some(raw)
      else if Classify(raw).SectionLine? then None
      else HeadingAfter(raws[..|raws| - 1])
  }

  /** The version the rows below the lines are meant for. */
  function MeantVersion(raws: seq<string>): string {
    var h := HeadingAfter(raws);
    if h.None? then "" else NamedVersion(h.value)
  }

  /** The version a recognised heading is filed under. */
  lemma VersionLines(raw: string)
    ensures Classify(raw).Version? <==> IsHeading(raw) && IsKnownVersion(TrimSpace(raw))
    ensures Classify(raw).Version? ==> Classify(raw).version in ["v2", "v3"]
    ensures IsHeading(raw) && Classify(raw).Version? ==> (Classify(raw).version == NamedVersion(raw) <==> NamesTwoOrThree(raw))
    ensures IsHeading(raw) && NamesTwoOrThree(raw) ==> Classify(raw).Version?
  {
    hide TrimSpace, Contains, Fields, LeadingDigits;
    var line := TrimSpace(raw);
    if HasPrefix(line, "Version 2") {
      StartOfHeading(line, '2');
    }
    if HasPrefix(line, "Version 3") {
      StartOfHeading(line, '3');
    }
    if IsHeading(raw) {
      FirstDigit(line);
    }
  }

  lemma StartOfHeading(line: string, digit: char)
    requires digit == '2' || digit == '3'
    requires HasPrefix(line, "Version " + [digit])
    ensures HasPrefix(line, "Version ") && line[8] == digit
    ensures |LeadingDigits(line[8..])| > 0 && LeadingDigits(line[8..])[0] == digit
  {
    assert line[..9][..8] == line[..8] && ("Version " + [digit])[..8] == "Version ";
    PrefixAt(line, "Version " + [digit], 8);
    assert ("Version " + [digit])[8] == digit;
    assert IsDigit(line[8..][0]) && line[8..][0] == digit;
    DigitsLead(line[8..], 1);
  }

  lemma FirstDigit(line: string)
    requires HasPrefix(line, "Version ")
    ensures var d := LeadingDigits(line[8..]);
            && (d == "2" ==> HasPrefix(line, "Version 2"))
            && (d == "3" ==> HasPrefix(line, "Version 3"))
            && ("v" + d == "v2" <==> d == "2") && ("v" + d == "v3" <==> d == "3")
  {
    var d := LeadingDigits(line[8..]);
    assert ("v" + d)[1..] == d;
    assert "v2"[1..] == "2" && "v3"[1..] == "3";
    if d == "2" || d == "3" {
      assert line[8..][..1] == d[..1];
      assert line[..9] == line[..8] + [line[8]];
      assert line[8..][0] == line[8] && d[0] == line[8];
    }
  }

  /**
   * Wherever a row of values stands in the output, it is filed under the version its heading names if
   * and only if it has no heading or the heading names version 2 or 3.
   */
  lemma {:induction false} FiledUnderOwnVersion(raws: seq<string>)
    ensures VersionAfter(ClassifyAll(raws)) in ["", "v2", "v3"]
    ensures VersionAfter(ClassifyAll(raws)) == MeantVersion(raws)
       <==> (HeadingAfter(raws).Some? ==> NamesTwoOrThree(HeadingAfter(raws).value))
  {
    if raws != [] {
      hide Classify, ClassifyAll, VersionAfter, IsHeading, IsKnownVersion, NamedVersion;
      var n := |raws| - 1;
      var raw := raws[n];
      VersionAfterStep(raws);
      FiledUnderOwnVersion(raws[..n]);
      VersionLines(raw);
      if IsHeading(raw) {
        NamedVersionIsSome(raw);
        HeadingIsNoSection(raw);
      }
    }
  }

  lemma VersionAfterStep(raws: seq<string>)
    requires raws != []
    ensures var l := Classify(raws[|raws| - 1]);
            VersionAfter(ClassifyAll(raws)) ==
              if l.Version? then l.version else if l.SectionLine? then "" else VersionAfter(ClassifyAll(raws[..|raws| - 1]))
  {
    hide Classify;
    assert ClassifyAll(raws)[..|raws| - 1] == ClassifyAll(raws[..|raws| - 1]);
  }

  lemma NamedVersionIsSome(raw: string)
    requires IsHeading(raw)
    ensures NamedVersion(raw) != ""
  {
  }

  lemma HeadingIsNoSection(raw: string)
    requires IsHeading(raw)
    ensures !Classify(raw).SectionLine?
  {
  }

  /** Rows below any row of names are paired under the section and version before it. */
  lemma PairBehindNames(lines: seq<Line>, heading: seq<string>, names: seq<string>, values: seq<string>)
    ensures Pairs(lines + [Names(heading), Names(names), Values(values, true)])
         == Pairs(lines) + [Pair(SectionAfter(lines), VersionAfter(lines), names, values, true)]
  {
    var one, two := lines + [Names(heading)], lines + [Names(heading), Names(names)];
    var all := lines + [Names(heading), Names(names), Values(values, true)];
    assert one[..|one| - 1] == lines && two[..|two| - 1] == one && all[..|all| - 1] == two;
    assert Pairs(one) == Pairs(lines);
    assert Pairs(two) == Pairs(one);
    assert SectionAfter(two) == SectionAfter(one) == SectionAfter(lines);
    assert VersionAfter(two) == VersionAfter(one) == VersionAfter(lines);
    assert all[|all| - 2] == Names(names);
  }

  lemma OpKeyInjective(v: string, n: string, m: string)
    ensures OpKey(v, n) == OpKey(v, m) <==> n == m
  {
    if v != "" && OpKey(v, n) == OpKey(v, m) {
      assert OpKey(v, n)[|v| + 1..] == n && OpKey(v, m)[|v| + 1..] == m;
    }
  }

  /** The count of the last column that names an operation. */
  lemma CountOfColumn(p: Pair, i: nat)
    requires i < |p.names| && 2 * i < |p.values| && forall j :: i < j < |p.names| ==> p.names[j] != p.names[i]
    ensures CountIn(p, OpKey(p.version, p.names[i])) == Some(ParseUint(p.values[2 * i]))
  {
    hide OpKey, ParseUint;
    var key := OpKey(p.version, p.names[i]);
    forall j | i < j < |p.names| ensures !Naming(p, key, j) {
      OpKeyInjective(p.version, p.names[i], p.names[j]);
    }
    assert Naming(p, key, i);
  }

  /**
   * So the rows below the heading of another version replace the counts of the version in force: the
   * operations they name hold their counts, whatever the version's own rows said.
   */
  lemma OtherVersionReplaces(s: Stats, lines: seq<Line>, heading: string, names: seq<string>, values: seq<string>, i: nat)
    requires IsHeading(heading) && !IsKnownVersion(TrimSpace(heading)) && IsOperations(SectionAfter(lines))
    requires i < |names| && 2 * i < |values| && forall j :: i < j < |names| ==> names[j] != names[i]
    ensures var all := lines + [Classify(heading), Names(names), Values(values, true)];
            var after, key := OpsOf(ApplyAll(s, Pairs(all)), SectionAfter(lines)), OpKey(VersionAfter(lines), names[i]);
            key in after && after[key] == ParseUint(values[2 * i])
  {
    hide Classify, IsHeading, IsKnownVersion, OpKey, ParseUint, Pairs, SectionAfter, VersionAfter, ApplyAll, OpsOf, CountIn;
    HeadingRecognised(heading);
    VersionLines(heading);
    PairBehindNames(lines, Fields(TrimSpace(heading)), names, values);
    var p := Pair(SectionAfter(lines), VersionAfter(lines), names, values, true);
    CountOfColumn(p, i);
    LastPairCounts(Pairs(lines), p, OpKey(p.version, names[i]));
    OperationMeaning(s, Pairs(lines) + [p], SectionAfter(lines), OpKey(p.version, names[i]));
  }

  lemma LastPairCounts(pairs: seq<Pair>, p: Pair, key: string)
    requires p.percent && CountIn(p, key).Some?
    ensures LastCount(pairs + [p], p.section, key) == CountIn(p, key)
  {
    hide CountIn;
    assert (pairs + [p])[|pairs + [p]| - 1] == p;
  }

  /* ---- one such text ---- */

  function ServerLine(): string { "Server nfs:" }

  function ThreeLine(): string { "Version 3: (7 calls)" }

  function FourLine(): string { "Version 4: (9 calls)" }

  function NullLine(): string { "null" }

  function CountLine(digit: char): string { [digit] + " 100%" }

  lemma NoCapitals(line: string)
    requires 'S' !in line && 'C' !in line
    ensures NoSectionWords(line)
  {
    NotContained(line, "Server rpc:");
    NotContained(line, "Server nfs:");
    NotContained(line, "Client rpc:");
    NotContained(line, "Client nfs:");
    NotContained(line, "Connection oriented");
    NotContained(line, "Connectionless");
  }

  lemma NullRow()
    ensures Classify(NullLine()) == Names([NullLine()])
  {
    hide Contains, TrimSpace, FieldsBy, ParseUint64;
    var line := NullLine();
    TrimSpaceOfPlain(line);
    NoCapitals(line);
    FieldsHead(line, "", IsSpace);
    FieldsOfNothing();
    assert line + "" == line && Fields(line) == [line];
    assert TrimSuffix(line, "%") == line;
    NoNumber(line);
  }

  lemma NoNumber(s: string)
    requires s != "" && !IsDigit(s[0])
    ensures ParseUint64(s) == None
  {
  }

  lemma CountRow(digit: char)
    requires IsDigit(digit)
    ensures Classify(CountLine(digit)) == Values([[digit], "100%"], true)
  {
    hide Contains, TrimSpace, FieldsBy, ParseUint64;
    var line := [digit] + " 100%";
    TrimSpaceOfPlain(line);
    NoCapitals(line);
    RowFields(digit);
    ContainsElement(line, '%');
    OneDigit(digit);
  }

  lemma RowFields(digit: char)
    requires IsDigit(digit)
    ensures FieldsBy([digit] + " 100%", IsSpace) == [[digit], "100%"]
  {
    FieldsOfJoined([[digit]], "100%", ' ', IsSpace);
    assert Terminated([[digit]], ' ') + "100%" == [digit] + " 100%";
  }

  lemma OneDigit(digit: char)
    requires IsDigit(digit)
    ensures IsNumericField([digit]) && ParseUint([digit]) == (digit - '0') as int
  {
    hide TrimSpace;
    var s := [digit];
    TrimSpaceOfPlain(s);
    assert s[..0] == "" && Value(s) == (digit - '0') as int;
    assert TrimSuffix(s, "%") == s;
  }

  /** The headings of the two transports open nothing; they only part the rows before from those behind. */
  lemma TransportHeadings()
    ensures Classify("Connection oriented") == Transport && Classify("Connectionless") == Transport
  {
    hide Classify;
    TransportHeading("Connection oriented");
    TransportHeading("Connectionless");
  }

  lemma TransportHeading(line: string)
    requires line == "Connection oriented" || line == "Connectionless"
    ensures Classify(line) == Transport
  {
    hide Find, Fields, TrimSpace, TrimSuffix, IsNumericField;
    TrimSpaceOfPlain(line);
    NotContained(line, "Server rpc:");
    NotContained(line, "Server nfs:");
    PrefixAt(line, "Client rpc:", 1);
    FindNext(line, "Client rpc:");
    NotContained(line[1..], "Client rpc:");
    PrefixAt(line, "Client nfs:", 1);
    FindNext(line, "Client nfs:");
    NotContained(line[1..], "Client nfs:");
    FindWhole(line);
  }

  /** Each section heading opens its own section. */
  lemma SectionHeadings()
    ensures Classify("Server rpc:") == SectionLine(ServerRPC) && Classify("Server nfs:") == SectionLine(ServerNFS)
    ensures Classify("Client rpc:") == SectionLine(ClientRPC) && Classify("Client nfs:") == SectionLine(ClientNFS)
  {
    hide Classify;
    ServerRpcHeading();
    ServerHeading();
    ClientRpcHeading();
    ClientNfsHeading();
  }

  lemma ServerRpcHeading()
    ensures Classify("Server rpc:") == SectionLine(ServerRPC)
  {
    hide Find, Fields, TrimSpace, TrimSuffix, IsNumericField;
    TrimSpaceOfPlain("Server rpc:");
    FindWhole("Server rpc:");
  }

  lemma ClientRpcHeading()
    ensures Classify("Client rpc:") == SectionLine(ClientRPC)
  {
    hide Find, Fields, TrimSpace, TrimSuffix, IsNumericField;
    var line := "Client rpc:";
    TrimSpaceOfPlain(line);
    NotContained(line, "Server rpc:");
    NotContained(line, "Server nfs:");
    FindWhole(line);
  }

  lemma ClientNfsHeading()
    ensures Classify("Client nfs:") == SectionLine(ClientNFS)
  {
    hide Find, Fields, TrimSpace, TrimSuffix, IsNumericField;
    var line := "Client nfs:";
    TrimSpaceOfPlain(line);
    NotContained(line, "Server rpc:");
    NotContained(line, "Server nfs:");
    PrefixAt(line, "Client rpc:", 7);
    FindNext(line, "Client rpc:");
    NotContained(line[1..], "Client rpc:");
    FindWhole(line);
  }

  /** A pair of rows right below a section line adds to the counters of that section, and to no other. */
  lemma RowsFillTheirSection(s: Stats, lines: seq<Line>, section: Section, names: seq<string>, values: seq<string>,
                             other: Section, column: string)
    requires Counter(ApplyAll(s, Pairs(lines)), other, column).Some?
    requires Counter(ApplyAll(s, Pairs(lines)), other, column).value < TWO64
    ensures var c := Counter(ApplyAll(s, Pairs(lines)), other, column).value;
            Counter(ApplyAll(s, Pairs(lines + [SectionLine(section), Names(names), Values(values, false)])), other, column) ==
              Some(Add64(c, if other == section then ColumnSum(names, values, column) else 0))
  {
    hide Counter, ApplyAll, Add64, ColumnSum, Apply, Pairs;
    PairBelowSection(s, lines, section, names, values);
    OnePairMeaning(ApplyAll(s, Pairs(lines)), Pair(section, "", names, values, false), other, column,
                   Counter(ApplyAll(s, Pairs(lines)), other, column).value);
  }

  lemma PairBelowSection(s: Stats, lines: seq<Line>, section: Section, names: seq<string>, values: seq<string>)
    ensures ApplyAll(s, Pairs(lines + [SectionLine(section), Names(names), Values(values, false)]))
         == Apply(ApplyAll(s, Pairs(lines)), Pair(section, "", names, values, false))
  {
    hide Apply, ApplyAll, Pairs, SectionAfter, VersionAfter;
    var all, n := lines + [SectionLine(section), Names(names), Values(values, false)], |lines|;
    PairsStep(s, all, n);
    PairsStep(s, all, n + 1);
    PairsStep(s, all, n + 2);
    assert all[..n] == lines && all[..n + 3] == all;
  }

  lemma ServerHeading()
    ensures Classify(ServerLine()) == SectionLine(ServerNFS)
  {
    hide Find, Fields, TrimSpace, TrimSuffix, IsNumericField;
    var line := ServerLine();
    TrimSpaceOfPlain(line);
    PrefixAt(line, "Server rpc:", 7);
    FindNext(line, "Server rpc:");
    NotContained(line[1..], "Server rpc:");
    FindWhole(line);
  }

  lemma FindWhole(s: string)
    ensures Contains(s, s)
  {
    assert s[..|s|] == s;
  }

  lemma VersionHeadings()
    ensures Classify(ThreeLine()) == Version("v3")
    ensures IsHeading(FourLine()) && !IsKnownVersion(TrimSpace(FourLine()))
  {
    hide Classify, Contains, TrimSpace, NamedVersion, NoSectionWords;
    var three, four := ThreeLine(), FourLine();
    TrimSpaceOfPlain(three);
    TrimSpaceOfPlain(four);
    NoCapitals(three);
    NoCapitals(four);
    assert three[..9] == "Version 3" && three[..8] == "Version ";
    assert four[..8] == "Version ";
    PrefixAt(four, "Version 2", 8);
    PrefixAt(four, "Version 3", 8);
    VersionLines(three);
    PrefixAt(three, "Version 2", 8);
    ThreeIsFiled(three);
  }

  /** A section with one operation of version 3. */
  function FirstLines(n: string, x: string): seq<Line> {
    [SectionLine(ServerNFS), Version("v3"), Names([n]), Values([x, "100%"], true)]
  }

  /** The same operation below another heading. */
  function OtherLines(heading: string, n: string, y: string): seq<Line> {
    [Classify(heading), Names([n]), Values([y, "100%"], true)]
  }

  /** The count of version 3 is there before the other heading, and is replaced behind it. */
  lemma SampleReplaces(heading: string, n: string, x: string, y: string)
    requires IsHeading(heading) && !IsKnownVersion(TrimSpace(heading))
    ensures var key, three := OpKey("v3", n), ApplyAll(ZERO, Pairs(FirstLines(n, x))).serverOps;
            key in three && three[key] == ParseUint(x)
    ensures var key, both := OpKey("v3", n), ApplyAll(ZERO, Pairs(FirstLines(n, x) + OtherLines(heading, n, y))).serverOps;
            key in both && both[key] == ParseUint(y)
  {
    hide Classify, Pairs, SectionAfter, VersionAfter, ParseUint, ApplyAll, IsHeading, IsKnownVersion, OpKey, TrimSpace, FirstLines;
    FirstThree(n, x);
    OtherVersionReplaces(ZERO, FirstLines(n, x), heading, [n], [y, "100%"], 0);
  }

  lemma FirstThree(n: string, x: string)
    ensures SectionAfter(FirstLines(n, x)) == ServerNFS && VersionAfter(FirstLines(n, x)) == "v3"
    ensures var key, ops := OpKey("v3", n), ApplyAll(ZERO, Pairs(FirstLines(n, x))).serverOps;
            key in ops && ops[key] == ParseUint(x)
  {
    hide ParseUint, ApplyAll, OpKey, Pairs, SectionAfter, VersionAfter, OperationCounts, CountIn;
    var lines := FirstLines(n, x);
    PairsStep(ZERO, lines, 0);
    PairsStep(ZERO, lines, 1);
    PairsStep(ZERO, lines, 2);
    PairsStep(ZERO, lines, 3);
    assert lines[..4] == lines;
    NothingBefore(lines);
    var p := Pair(ServerNFS, "v3", [n], [x, "100%"], true);
    CountOfColumn(p, 0);
    OperationCountsMeaning(ApplyAll(ZERO, Pairs(lines[..3])).serverOps, p, OpKey("v3", n));
  }

  lemma NothingBefore(lines: seq<Line>)
    ensures SectionAfter(lines[..0]) == NoSection && VersionAfter(lines[..0]) == ""
  {
  }

  lemma ClassifyFour(a: string, b: string, c: string, d: string)
    ensures ClassifyAll([a, b, c, d]) == [Classify(a), Classify(b), Classify(c), Classify(d)]
  {
    hide Classify;
  }

  lemma ClassifyMore(raws: seq<string>, a: string, b: string, c: string)
    ensures ClassifyAll(raws + [a, b, c]) == ClassifyAll(raws) + [Classify(a), Classify(b), Classify(c)]
  {
    hide Classify;
  }

  lemma ThreeIsFiled(raw: string)
    requires Classify(raw).Version? && !HasPrefix(TrimSpace(raw), "Version 2")
    ensures Classify(raw) == Version("v3")
  {
    hide TrimSpace, Contains, Fields;
  }

  function VersionThreeText(): seq<string> {
    [ServerLine(), ThreeLine(), NullLine(), CountLine('7')]
  }

  function BothVersionsText(): seq<string> {
    VersionThreeText() + [FourLine(), NullLine(), CountLine('9')]
  }

  lemma ClassifyTexts()
    ensures ClassifyAll(VersionThreeText()) == FirstLines(NullLine(), ['7'])
    ensures ClassifyAll(BothVersionsText()) == FirstLines(NullLine(), ['7']) + OtherLines(FourLine(), NullLine(), ['9'])
  {
    hide Classify, ClassifyAll, ServerLine, ThreeLine, FourLine, NullLine, CountLine, IsHeading, IsKnownVersion, ParseUint, TrimSpace, OpKey;
    ServerHeading();
    VersionHeadings();
    NullRow();
    CountRow('7');
    CountRow('9');
    ClassifyFour(ServerLine(), ThreeLine(), NullLine(), CountLine('7'));
    ClassifyMore(VersionThreeText(), FourLine(), NullLine(), CountLine('9'));
  }

  /** Seven calls of version 3 and nine of version 4: after both, version 3 is shown with nine. */
  lemma VersionFourReplacesThree()
    ensures var three, both := ApplyAll(ZERO, Pairs(ClassifyAll(VersionThreeText()))).serverOps,
                               ApplyAll(ZERO, Pairs(ClassifyAll(BothVersionsText()))).serverOps;
            && "v3_null" in three && three["v3_null"] == 7
            && "v3_null" in both && both["v3_null"] == 9
  {
    hide Classify, ClassifyAll, Pairs, ParseUint, ApplyAll, IsHeading, IsKnownVersion, TrimSpace, FirstLines, OtherLines,
      VersionThreeText, BothVersionsText, FourLine, ServerLine, ThreeLine;
    ClassifyTexts();
    VersionHeadings();
    OneDigit('7');
    OneDigit('9');
    SampleReplaces(FourLine(), NullLine(), ['7'], ['9']);
    assert OpKey("v3", NullLine()) == "v3_null";
  }
}
