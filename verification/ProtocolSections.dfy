/**
 * A report of sections: a header line names a protocol, and each indented line below it may add a
 * value under a key. The reading of single lines is a parameter.
 */
module ProtocolSections {
  import opened Text

  datatype Count = Count(key: string, value: int)

  /** How a line is read: the protocol a header names, and what an indented line counts for a protocol. */
  datatype Reader = Reader(header: string -> Option<string>, count: (string, string) -> Option<Count>)

  type Counters = map<string, int>

  datatype ProtoStats = ProtoStats(protocol: string, stats: Counters)

  /** Two's complement wrap-around of int64. */
  function Wrap(n: int): (w: int)
    ensures -(TWO63 as int) <= w < TWO63
  {
    (n + TWO63) % TWO64 - TWO63
  }

  function Plus(c: Counters, n: Count): Counters {
    c[n.key := Wrap((if n.key in c then c[n.key] else 0) + n.value)]
  }

  predicate Selected(protocols: seq<string>, proto: string) {
    |protocols| == 0 || StringsHas(protocols, proto)
  }

  function Emit(protocols: seq<string>, proto: string, c: Counters): seq<ProtoStats> {
    if proto != "" && |c| > 0 && Selected(protocols, proto) then [ProtoStats(proto, c)] else []
  }

  datatype State = State(stats: seq<ProtoStats>, proto: string, current: Counters)

  function Step(r: Reader, protocols: seq<string>, s: State, line: string): State {
    var h := r.header(line);
    if h.Some? then State(s.stats + Emit(protocols, s.proto, s.current), h.value, map[])
    else if s.proto == "" || r.count(s.proto, line).None? then s
    else s.(current := Plus(s.current, r.count(s.proto, line).value))
  }

  function Fold(r: Reader, protocols: seq<string>, lines: seq<string>): State {
    if lines == [] then State([], "", map[])
    else Step(r, protocols, Fold(r, protocols, lines[..|lines| - 1]), lines[|lines| - 1])
  }

  function Parse(r: Reader, protocols: seq<string>, lines: seq<string>): seq<ProtoStats> {
    var s := Fold(r, protocols, lines);
    s.stats + Emit(protocols, s.proto, s.current)
  }

  /** The loop over the lines, with the protocol and counters it carries. */
  method ParseSections(r: Reader, lines: seq<string>, protocols: seq<string>) returns (stats: seq<ProtoStats>)
    ensures stats == Parse(r, protocols, lines)
  {
    stats := [];
    var currentProto: string, currentStats: Counters := "", map[];
    for i := 0 to |lines|
      invariant State(stats, currentProto, currentStats) == Fold(r, protocols, lines[..i])
    {
      assert lines[..i + 1][..i] == lines[..i] && lines[..i + 1][i] == lines[i];
      var header := r.header(lines[i]);
      if header.Some? {
        if currentProto != "" && |currentStats| > 0 {
          if |protocols| == 0 || StringsHas(protocols, currentProto) {
            stats := stats + [ProtoStats(currentProto, currentStats)];
          }
        }
        currentProto := header.value;
        currentStats := map[];
        continue;
      }
      if currentProto == "" {
        continue;
      }
      var c := r.count(currentProto, lines[i]);
      if c.Some? {
        var key := c.value.key;
        currentStats := currentStats[key := Wrap((if key in currentStats then currentStats[key] else 0) + c.value.value)];
      }
    }
    assert lines[..|lines|] == lines;
    if currentProto != "" && |currentStats| > 0 {
      if |protocols| == 0 || StringsHas(protocols, currentProto) {
        stats := stats + [ProtoStats(currentProto, currentStats)];
      }
    }
  }

  /* ---- a protocol list filters the full parse ---- */

  function Only(protocols: seq<string>, stats: seq<ProtoStats>): seq<ProtoStats> {
    if stats == [] then []
    else
      var n := |stats| - 1;
      Only(protocols, stats[..n]) + if Selected(protocols, stats[n].protocol) then [stats[n]] else []
  }

  lemma OnlyEmit(protocols: seq<string>, stats: seq<ProtoStats>, proto: string, c: Counters)
    ensures Only(protocols, stats + Emit([], proto, c)) == Only(protocols, stats) + Emit(protocols, proto, c)
  {
    var one := ProtoStats(proto, c);
    assert (stats + [one])[..|stats|] == stats;
    assert stats + [] == stats && Only(protocols, stats) + [] == Only(protocols, stats);
  }

  lemma {:induction false} FoldOnly(r: Reader, protocols: seq<string>, lines: seq<string>)
    ensures var some, full := Fold(r, protocols, lines), Fold(r, [], lines);
            some == full.(stats := Only(protocols, full.stats))
  {
    if lines != [] {
      var rest := lines[..|lines| - 1];
      FoldOnly(r, protocols, rest);
      var full := Fold(r, [], rest);
      OnlyEmit(protocols, full.stats, full.proto, full.current);
    }
  }

  lemma SelectionFilters(r: Reader, protocols: seq<string>, lines: seq<string>)
    ensures Parse(r, protocols, lines) == Only(protocols, Parse(r, [], lines))
  {
    FoldOnly(r, protocols, lines);
    var full := Fold(r, [], lines);
    OnlyEmit(protocols, full.stats, full.proto, full.current);
  }

  /* ---- sections are parsed one by one ---- */

  predicate StartsSection(r: Reader, lines: seq<string>) {
    lines != [] && r.header(lines[0]).Some?
  }

  function Behind(before: seq<ProtoStats>, s: State): State {
    s.(stats := before + s.stats)
  }

  /** Sections already listed do not influence a step. */
  lemma StepBehind(r: Reader, protocols: seq<string>, before: seq<ProtoStats>, s: State, line: string)
    ensures Step(r, protocols, Behind(before, s), line) == Behind(before, Step(r, protocols, s, line))
  {
    var e := Emit(protocols, s.proto, s.current);
    assert before + s.stats + e == before + (s.stats + e);
  }

  lemma HeaderForgets(r: Reader, protocols: seq<string>, a: seq<string>, header: string)
    requires r.header(header).Some?
    ensures Fold(r, protocols, a + [header]) == Behind(Parse(r, protocols, a), Fold(r, protocols, [header]))
  {
    assert (a + [header])[..|a|] == a && [header][..0] == [];
    assert Fold(r, protocols, [header]) == State([], r.header(header).value, map[]);
    assert Parse(r, protocols, a) + [] == Parse(r, protocols, a);
  }

  lemma {:induction false} FoldAtHeader(r: Reader, protocols: seq<string>, a: seq<string>, b: seq<string>)
    requires StartsSection(r, b)
    ensures Fold(r, protocols, a + b) == Behind(Parse(r, protocols, a), Fold(r, protocols, b))
    decreases |b|
  {
    var n := |b| - 1;
    if n == 0 {
      assert b == [b[0]];
      HeaderForgets(r, protocols, a, b[0]);
    } else {
      assert (a + b)[..|a| + n] == a + b[..n] && (a + b)[|a| + n] == b[n];
      FoldAtHeader(r, protocols, a, b[..n]);
      StepBehind(r, protocols, Parse(r, protocols, a), Fold(r, protocols, b[..n]), b[n]);
    }
  }

  /** Nothing is carried over a header: a text parses as its sections do. */
  lemma SectionsAreIndependent(r: Reader, protocols: seq<string>, a: seq<string>, b: seq<string>)
    requires StartsSection(r, b)
    ensures Parse(r, protocols, a + b) == Parse(r, protocols, a) + Parse(r, protocols, b)
  {
    FoldAtHeader(r, protocols, a, b);
    var s := Fold(r, protocols, b);
    assert Parse(r, protocols, a) + s.stats + Emit(protocols, s.proto, s.current)
        == Parse(r, protocols, a) + (s.stats + Emit(protocols, s.proto, s.current));
  }

  /* ---- one section ---- */

  predicate NoHeader(r: Reader, lines: seq<string>) {
    forall i :: 0 <= i < |lines| ==> r.header(lines[i]).None?
  }

  /** What the accepted lines put under one key, without wrap-around. */
  function SumFor(r: Reader, proto: string, lines: seq<string>, key: string): int {
    if lines == [] then 0
    else
      var n := |lines| - 1;
      var c := r.count(proto, lines[n]);
      SumFor(r, proto, lines[..n], key) + if c.Some? && c.value.key == key then c.value.value else 0
  }

  predicate Mentions(r: Reader, proto: string, lines: seq<string>, key: string) {
    lines != [] &&
    var n := |lines| - 1;
    var c := r.count(proto, lines[n]);
    Mentions(r, proto, lines[..n], key) || (c.Some? && c.value.key == key)
  }

  ghost predicate SectionMeaning(r: Reader, c: Counters, proto: string, lines: seq<string>) {
    forall key :: (key in c <==> Mentions(r, proto, lines, key)) && (key in c ==> c[key] == Wrap(SumFor(r, proto, lines, key)))
  }

  lemma WrapSum(a: int, b: int)
    ensures Wrap(Wrap(a) + b) == Wrap(a + b)
  {
    var q := (a + TWO63) / TWO64;
    assert Wrap(a) == a - q * TWO64;
    assert (Wrap(a) + b + TWO63) % TWO64 == (a + b + TWO63 - q * TWO64) % TWO64;
    ModShift(a + b + TWO63, q);
  }

  lemma {:induction false} UnmentionedSumsToZero(r: Reader, proto: string, lines: seq<string>, key: string)
    requires !Mentions(r, proto, lines, key)
    ensures SumFor(r, proto, lines, key) == 0
  {
    if lines != [] {
      UnmentionedSumsToZero(r, proto, lines[..|lines| - 1], key);
    }
  }

  lemma {:induction false} SectionSums(r: Reader, protocols: seq<string>, header: string, lines: seq<string>)
    requires r.header(header).Some? && r.header(header).value != "" && NoHeader(r, lines)
    ensures var s := Fold(r, protocols, [header] + lines);
            s.stats == [] && s.proto == r.header(header).value && SectionMeaning(r, s.current, s.proto, lines)
    decreases |lines|
  {
    var proto := r.header(header).value;
    var all := [header] + lines;
    if lines == [] {
      assert all[..0] == [] && all[0] == header;
    } else {
      var n := |lines| - 1;
      assert all[..|all| - 1] == [header] + lines[..n] && all[|all| - 1] == lines[n];
      SectionSums(r, protocols, header, lines[..n]);
      var before := Fold(r, protocols, [header] + lines[..n]).current;
      var c := r.count(proto, lines[n]);
      if c.Some? {
        var key := c.value.key;
        if key in before {
          WrapSum(SumFor(r, proto, lines[..n], key), c.value.value);
        } else {
          UnmentionedSumsToZero(r, proto, lines[..n], key);
        }
      }
    }
  }

  function TotalAccepted(r: Reader, proto: string, lines: seq<string>): int {
    if lines == [] then 0
    else
      var n := |lines| - 1;
      var c := r.count(proto, lines[n]);
      TotalAccepted(r, proto, lines[..n]) + if c.Some? then c.value.value else 0
  }

  function SumOver(r: Reader, proto: string, lines: seq<string>, keys: seq<string>): int {
    if keys == [] then 0
    else SumOver(r, proto, lines, keys[..|keys| - 1]) + SumFor(r, proto, lines, keys[|keys| - 1])
  }

  predicate Distinct(keys: seq<string>) {
    forall i, j :: 0 <= i < j < |keys| ==> keys[i] != keys[j]
  }

  /** One more line adds its value to the sum of exactly one key. */
  lemma {:induction false} OneLineOneKey(r: Reader, proto: string, lines: seq<string>, keys: seq<string>)
    requires lines != [] && Distinct(keys)
    ensures var n := |lines| - 1; var c := r.count(proto, lines[n]);
            SumOver(r, proto, lines, keys) ==
              SumOver(r, proto, lines[..n], keys) + if c.Some? && c.value.key in keys then c.value.value else 0
    decreases |keys|
  {
    if keys != [] {
      var m := |keys| - 1;
      OneLineOneKey(r, proto, lines, keys[..m]);
      assert keys == keys[..m] + [keys[m]];
    }
  }

  /** The counters of a section, over any listing of its keys, add up to the counts of its accepted lines. */
  lemma {:induction false} SectionConserves(r: Reader, proto: string, lines: seq<string>, keys: seq<string>)
    requires Distinct(keys) && forall key :: Mentions(r, proto, lines, key) ==> key in keys
    ensures SumOver(r, proto, lines, keys) == TotalAccepted(r, proto, lines)
    decreases |lines|
  {
    if lines == [] {
      NoLinesNoSum(r, proto, keys);
    } else {
      var n := |lines| - 1;
      forall key | Mentions(r, proto, lines[..n], key) ensures key in keys {
        assert Mentions(r, proto, lines, key);
      }
      SectionConserves(r, proto, lines[..n], keys);
      OneLineOneKey(r, proto, lines, keys);
      var c := r.count(proto, lines[n]);
      if c.Some? {
        assert Mentions(r, proto, lines, c.value.key);
      }
    }
  }

  lemma {:induction false} NoLinesNoSum(r: Reader, proto: string, keys: seq<string>)
    ensures SumOver(r, proto, [], keys) == 0
  {
    if keys != [] {
      NoLinesNoSum(r, proto, keys[..|keys| - 1]);
    }
  }

  function StoredOver(c: Counters, keys: seq<string>): int {
    if keys == [] then 0
    else var k := keys[|keys| - 1]; StoredOver(c, keys[..|keys| - 1]) + if k in c then c[k] else 0
  }

  lemma {:induction false} StoredIsSum(r: Reader, c: Counters, proto: string, lines: seq<string>, keys: seq<string>)
    requires SectionMeaning(r, c, proto, lines)
    ensures Wrap(StoredOver(c, keys)) == Wrap(SumOver(r, proto, lines, keys))
  {
    if keys != [] {
      var rest, k := keys[..|keys| - 1], keys[|keys| - 1];
      StoredIsSum(r, c, proto, lines, rest);
      var x, y := StoredOver(c, rest), SumOver(r, proto, lines, rest);
      var stored, sum := if k in c then c[k] else 0, SumFor(r, proto, lines, k);
      if k !in c {
        UnmentionedSumsToZero(r, proto, lines, k);
      } else {
        WrapSum(sum, x);
        assert Wrap(stored + x) == Wrap(sum + x);
      }
      WrapSum(x, sum);
      WrapSum(y, sum);
    }
  }

  /** What a section stores adds up, modulo 2^64, to the counts of the lines it accepted. */
  lemma SectionTotal(r: Reader, protocols: seq<string>, header: string, lines: seq<string>, keys: seq<string>)
    requires r.header(header).Some? && r.header(header).value != "" && NoHeader(r, lines)
    requires Distinct(keys) && forall key :: key in Fold(r, protocols, [header] + lines).current ==> key in keys
    ensures Wrap(StoredOver(Fold(r, protocols, [header] + lines).current, keys))
         == Wrap(TotalAccepted(r, r.header(header).value, lines))
  {
    var proto, c := r.header(header).value, Fold(r, protocols, [header] + lines).current;
    SectionSums(r, protocols, header, lines);
    StoredIsSum(r, c, proto, lines, keys);
    SectionConserves(r, proto, lines, keys);
  }
}
