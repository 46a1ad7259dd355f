/** The interface counters of Darwin: result slots are allotted by counting names, then filled in row order. */
module DarwinInterfaces {
  import opened Text

  datatype Stat = Stat(name: string, counters: seq<nat>)

  /** One netstat row; only rows of a link carry a link id. */
  datatype Iface = Iface(linkID: Option<nat>, stat: Stat)

  type Usage = map<string, nat>

  /** The statistics of the link rows, in order. */
  function LinkStats(ifaces: seq<Iface>): seq<Stat> {
    if ifaces == [] then []
    else
      var n := |ifaces| - 1;
      LinkStats(ifaces[..n]) + if ifaces[n].linkID.Some? then [ifaces[n].stat] else []
  }

  function Times(stats: seq<Stat>, name: string): nat {
    if stats == [] then 0
    else var n := |stats| - 1; Times(stats[..n], name) + if stats[n].name == name then 1 else 0
  }

  /** Every name with the number of link rows that carry it. */
  ghost predicate Counts(usage: Usage, stats: seq<Stat>) {
    forall name :: (name in usage <==> Times(stats, name) > 0) && (name in usage ==> usage[name] == Times(stats, name))
  }

  method NewMapInterfaceNameUsage(ifaces: seq<Iface>) returns (output: Usage)
    ensures Counts(output, LinkStats(ifaces))
  {
    output := map[];
    for i := 0 to |ifaces|
      invariant Counts(output, LinkStats(ifaces[..i]))
    {
      assert ifaces[..i + 1][..i] == ifaces[..i] && ifaces[..i + 1][i] == ifaces[i];
      ghost var before := LinkStats(ifaces[..i]);
      assert LinkStats(ifaces[..i + 1]) == if ifaces[i].linkID.Some? then before + [ifaces[i].stat] else before;
      if ifaces[i].linkID.Some? {
        var name := ifaces[i].stat.name;
        CountOneMore(output, LinkStats(ifaces[..i]), ifaces[i].stat);
        if name in output {
          output := output[name := output[name] + 1];
        } else {
          output := output[name := 1];
        }
      }
    }
    assert ifaces[..|ifaces|] == ifaces;
  }

  lemma CountOneMore(usage: Usage, stats: seq<Stat>, s: Stat)
    requires Counts(usage, stats)
    ensures Counts(usage[s.name := if s.name in usage then usage[s.name] + 1 else 1], stats + [s])
  {
    assert (stats + [s])[..|stats|] == stats;
  }

  ghost predicate Truncated(usage: Usage) {
    exists name :: name in usage && usage[name] > 1
  }

  method IsTruncated(usage: Usage) returns (b: bool)
    ensures b <==> Truncated(usage)
  {
    var left := usage.Keys;
    while left != {}
      invariant left <= usage.Keys
      invariant forall name :: name in usage && name !in left ==> usage[name] <= 1
    {
      var name :| name in left;
      if usage[name] > 1 {
        return true;
      }
      left := left - {name};
    }
    b := false;
  }

  function Once(usage: Usage): set<string> {
    set name | name in usage && usage[name] == 1
  }

  /** The names used once, in whatever order the map yields them; what counts is how many there are. */
  method NotTruncated(usage: Usage) returns (output: seq<string>)
    ensures |output| == |Once(usage)| && forall name :: name in output <==> name in Once(usage)
  {
    output := [];
    var left := usage.Keys;
    ghost var done: set<string> := {};
    while left != {}
      invariant left <= usage.Keys && done == Once(usage) - left
      invariant |output| == |done| && forall name :: name in output <==> name in done
    {
      var name :| name in left;
      if usage[name] == 1 {
        output := output + [name];
        done := done + {name};
      }
      left := left - {name};
    }
    assert done == Once(usage);
  }

  /* ---- the counting argument ---- */

  lemma {:induction false} UsageOf(stats: seq<Stat>) returns (usage: Usage)
    ensures Counts(usage, stats)
  {
    if stats == [] {
      usage := map[];
    } else {
      var n := |stats| - 1;
      var u := UsageOf(stats[..n]);
      CountOneMore(u, stats[..n], stats[n]);
      assert stats[..n] + [stats[n]] == stats;
      usage := u[stats[n].name := if stats[n].name in u then u[stats[n].name] + 1 else 1];
    }
  }

  lemma CountsUnique(u: Usage, v: Usage, stats: seq<Stat>)
    requires Counts(u, stats) && Counts(v, stats)
    ensures u == v
  {
    assert forall name :: name in u <==> name in v;
  }

  /** There are never more names used once than link rows, and as many exactly when no name is used twice. */
  lemma {:induction false} SlotsMatchRows(usage: Usage, stats: seq<Stat>)
    requires Counts(usage, stats)
    ensures |Once(usage)| <= |stats|
    ensures |Once(usage)| == |stats| <==> !Truncated(usage)
  {
    if stats == [] {
      assert usage == map[] by {
        assert forall name :: name !in usage;
      }
      assert Once(usage) == {};
    } else {
      var n := |stats| - 1;
      var name := stats[n].name;
      var u := UsageOf(stats[..n]);
      SlotsMatchRows(u, stats[..n]);
      CountOneMore(u, stats[..n], stats[n]);
      assert stats[..n] + [stats[n]] == stats;
      CountsUnique(usage, u[name := if name in u then u[name] + 1 else 1], stats);
      OneMoreUse(u, name);
    }
  }

  lemma OneMoreUse(u: Usage, name: string)
    requires forall x :: x in u ==> u[x] > 0
    ensures var v := u[name := if name in u then u[name] + 1 else 1];
            if name in u then Truncated(v) && |Once(v)| <= |Once(u)|
            else |Once(v)| == |Once(u)| + 1 && (Truncated(v) <==> Truncated(u))
  {
    var v := u[name := if name in u then u[name] + 1 else 1];
    if name in u {
      assert v[name] > 1;
      assert Once(v) == Once(u) - {name};
    } else {
      assert Once(v) == Once(u) + {name};
      if Truncated(u) {
        var x :| x in u && u[x] > 1;
        assert v[x] > 1;
      }
      if Truncated(v) {
        var x :| x in v && v[x] > 1;
        assert u[x] > 1;
      }
    }
  }

  ghost predicate UsedTwice(stats: seq<Stat>) {
    exists name :: Times(stats, name) > 1
  }

  lemma TruncatedIsUsedTwice(usage: Usage, stats: seq<Stat>)
    requires Counts(usage, stats)
    ensures Truncated(usage) <==> UsedTwice(stats)
  {
    if Truncated(usage) {
      var name :| name in usage && usage[name] > 1;
      assert Times(stats, name) > 1;
    }
    if UsedTwice(stats) {
      var name :| Times(stats, name) > 1;
      assert usage[name] > 1;
    }
  }

  const EMPTY := Stat("", [])

  /** Without a truncated name every slot is filled, none is missing, and the rows keep their order. */
  method IOCounters(ifaces: seq<Iface>) returns (truncated: bool, ret: seq<Stat>)
    ensures truncated <==> UsedTwice(LinkStats(ifaces))
    ensures !truncated ==> ret == LinkStats(ifaces)
  {
    var usage := NewMapInterfaceNameUsage(ifaces);
    var names := NotTruncated(usage);
    var slots := new Stat[|names|](_ => EMPTY);
    truncated := IsTruncated(usage);
    TruncatedIsUsedTwice(usage, LinkStats(ifaces));
    if truncated {
      return true, [];
    }
    SlotsMatchRows(usage, LinkStats(ifaces));
    var retIndex := 0;
    for index := 0 to |ifaces|
      invariant retIndex == |LinkStats(ifaces[..index])|
      invariant retIndex <= slots.Length && slots[..retIndex] == LinkStats(ifaces[..index])
    {
      assert ifaces[..index + 1][..index] == ifaces[..index] && ifaces[..index + 1][index] == ifaces[index];
      LinkStatsGrow(ifaces, index + 1);
      if ifaces[index].linkID.Some? {
        slots[retIndex] := ifaces[index].stat;
        retIndex := retIndex + 1;
      }
    }
    assert ifaces[..|ifaces|] == ifaces;
    ret := slots[..];
  }

  lemma {:induction false} LinkStatsGrow(ifaces: seq<Iface>, i: nat)
    requires i <= |ifaces|
    ensures |LinkStats(ifaces[..i])| <= |LinkStats(ifaces)|
    decreases |ifaces|
  {
    if i == |ifaces| {
      assert ifaces[..i] == ifaces;
    } else {
      LinkStatsGrow(ifaces[..|ifaces| - 1], i);
      assert ifaces[..|ifaces| - 1][..i] == ifaces[..i];
    }
  }
}
