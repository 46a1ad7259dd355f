/** The block parser of /proc/<pid>/smaps, in both its per-mapping and its grouped mode. */
module Smaps {
  import opened Text

  datatype MemoryMap = MemoryMap(path: string, size: nat, rss: nat, pss: nat, sharedClean: nat, sharedDirty: nat,
                                 privateClean: nat, privateDirty: nat, referenced: nat, anonymous: nat, swap: nat)

  const ZERO := MemoryMap("", 0, 0, 0, 0, 0, 0, 0, 0, 0, 0)

  /* ---- one block ---- */

  datatype Attribute = Ignored | NotANumber | Attribute(key: string, value: nat)

  function ReadAttribute(line: string): Attribute {
    var field := SplitOn(line, ':');
    if Contains(line, "VmFlags") || |field| < 2 then Ignored
    else
      var t := ParseUint64(TrimSpace(TrimSuffix(field[1], " kB")));
      if t.None? then NotANumber else Attribute(field[0], t.value)
  }

  function SetField(m: MemoryMap, key: string, t: nat): MemoryMap {
    match key
    case "Size" => m.(size := t)
    case "Rss" => m.(rss := t)
    case "Pss" => m.(pss := t)
    case "Shared_Clean" => m.(sharedClean := t)
    case "Shared_Dirty" => m.(sharedDirty := t)
    case "Private_Clean" => m.(privateClean := t)
    case "Private_Dirty" => m.(privateDirty := t)
    case "Referenced" => m.(referenced := t)
    case "Anonymous" => m.(anonymous := t)
    case "Swap" => m.(swap := t)
    case _ => m
  }

  function PathOf(firstLine: seq<string>): string {
    if |firstLine| >= 6 then Join(firstLine[5..], " ") else ""
  }

  /** A mapping's header fields and the attribute lines below it. */
  datatype Section = Section(first: seq<string>, block: seq<string>)

  function ReadBlock(m: MemoryMap, attributes: seq<Attribute>): Option<MemoryMap>
    decreases |attributes|
  {
    if attributes == [] then Some(m)
    else
      match attributes[0]
      case NotANumber => None
      case Ignored => ReadBlock(m, attributes[1..])
      case Attribute(key, value) => ReadBlock(SetField(m, key, value), attributes[1..])
  }

  function AttributesOf(block: seq<string>): (r: seq<Attribute>)
    ensures |r| == |block| && forall i :: 0 <= i < |r| ==> r[i] == ReadAttribute(block[i])
  {
    seq(|block|, i requires 0 <= i < |block| => ReadAttribute(block[i]))
  }

  function RecordOf(s: Section): Option<MemoryMap> {
    ReadBlock(ZERO.(path := PathOf(s.first)), AttributesOf(s.block))
  }

  method GetBlock(firstLine: seq<string>, block: seq<string>) returns (r: Option<MemoryMap>)
    ensures r == RecordOf(Section(firstLine, block))
  {
    var m := ZERO;
    if |firstLine| >= 6 {
      m := m.(path := Join(firstLine[5..], " "));
    }
    ghost var attributes := AttributesOf(block);
    for i := 0 to |block|
      invariant RecordOf(Section(firstLine, block)) == ReadBlock(m, attributes[i..])
    {
      assert attributes[i..][0] == attributes[i] && attributes[i..][1..] == attributes[i + 1..];
      var a := ReadAttribute(block[i]);
      if a.Ignored? {
        continue;
      }
      if a.NotANumber? {
        return None;
      }
      m := SetField(m, a.key, a.value);
    }
    r := Some(m);
  }

  /* ---- sections of a text ---- */

  predicate IsHeader(fields: seq<string>) {
    fields != [] && !HasSuffix(fields[0], ":")
  }

  function Flush(first: seq<string>, block: seq<string>): seq<Section> {
    if first != [] && block != [] then [Section(first, block)] else []
  }

  /** The sections closed by the lines, given the header and attribute lines collected so far. */
  function Sections(first: seq<string>, block: seq<string>, lines: seq<string>): seq<Section>
    decreases |lines|
  {
    if lines == [] then []
    else if |lines| == 1 then Flush(first, block)
    else if IsHeader(Fields(lines[0])) then Flush(first, block) + Sections(Fields(lines[0]), [], lines[1..])
    else Sections(first, block + [lines[0]], lines[1..])
  }

  datatype Outcome = Outcome(records: seq<MemoryMap>, failed: bool)

  /** The records of the sections before the first one that does not parse. */
  function Collect(sections: seq<Section>): Outcome {
    if sections == [] then Outcome([], false)
    else
      var r := RecordOf(sections[0]);
      if r.None? then Outcome([], true)
      else var rest := Collect(sections[1..]); Outcome([r.value] + rest.records, rest.failed)
  }

  function Records(lines: seq<string>): Outcome {
    Collect(Sections([], [], lines))
  }

  /* ---- the two modes ---- */

  const KEYS: seq<string> := ["Size", "Rss", "Pss", "Shared_Clean", "Shared_Dirty", "Private_Clean", "Private_Dirty",
                              "Referenced", "Anonymous", "Swap"]

  function Values(m: MemoryMap): (r: seq<nat>)
    ensures |r| == |KEYS|
  {
    [m.size, m.rss, m.pss, m.sharedClean, m.sharedDirty, m.privateClean, m.privateDirty, m.referenced, m.anonymous, m.swap]
  }

  /** The plain sum of one counter over the records. */
  function Total(records: seq<MemoryMap>, k: nat): nat
    requires k < |KEYS|
  {
    if records == [] then 0 else Total(records[..|records| - 1], k) + Values(records[|records| - 1])[k]
  }

  /** Every counter added with 64-bit wrap-around; the path stays. */
  function AddTo(s: MemoryMap, g: MemoryMap): MemoryMap {
    MemoryMap(s.path, Add64(s.size, g.size), Add64(s.rss, g.rss), Add64(s.pss, g.pss),
              Add64(s.sharedClean, g.sharedClean), Add64(s.sharedDirty, g.sharedDirty),
              Add64(s.privateClean, g.privateClean), Add64(s.privateDirty, g.privateDirty),
              Add64(s.referenced, g.referenced), Add64(s.anonymous, g.anonymous), Add64(s.swap, g.swap))
  }

  function Sum(records: seq<MemoryMap>): MemoryMap {
    if records == [] then ZERO else AddTo(Sum(records[..|records| - 1]), records[|records| - 1])
  }

  lemma AddToCounter(s: MemoryMap, g: MemoryMap, k: nat)
    requires k < |KEYS|
    ensures Values(AddTo(s, g))[k] == Add64(Values(s)[k], Values(g)[k]) && AddTo(s, g).path == s.path
  {
  }

  lemma WrapTwice(a: nat, b: nat)
    ensures Add64(a % TWO64, b) == (a + b) % TWO64
  {
    ModShift(a + b, a / TWO64);
  }

  /** The grouped record has no path, and each counter is the plain sum of that counter, modulo 2^64. */
  lemma {:induction false} SumMeaning(records: seq<MemoryMap>, k: nat)
    requires k < |KEYS|
    ensures Sum(records).path == "" && Values(Sum(records))[k] == Total(records, k) % TWO64
  {
    if records != [] {
      hide AddTo, Values, Add64;
      var n := |records| - 1;
      SumMeaning(records[..n], k);
      AddToCounter(Sum(records[..n]), records[n], k);
      WrapTwice(Total(records[..n], k), Values(records[n])[k]);
    }
  }

  function Shown(records: seq<MemoryMap>, grouped: bool): (r: seq<MemoryMap>)
    ensures grouped ==> |r| == 1
  {
    if grouped then [Sum(records)] else records
  }

  lemma ShownOneMore(records: seq<MemoryMap>, g: MemoryMap, grouped: bool)
    ensures Shown(records + [g], grouped) ==
              if grouped then [AddTo(Shown(records, grouped)[0], g)] else Shown(records, grouped) + [g]
  {
    assert (records + [g])[..|records|] == records;
  }

  function Prepend(done: seq<MemoryMap>, o: Outcome): Outcome {
    Outcome(done + o.records, o.failed)
  }

  /** The outcome of the lines still to come. */
  function Ahead(first: seq<string>, block: seq<string>, lines: seq<string>): Outcome {
    Collect(Sections(first, block, lines))
  }

  lemma CloseSection(first: seq<string>, block: seq<string>, lines: seq<string>, done: seq<MemoryMap>)
    requires lines != [] && (|lines| == 1 || IsHeader(Fields(lines[0])))
    ensures var now, next := Prepend(done, Ahead(first, block, lines)), Ahead(Fields(lines[0]), [], lines[1..]);
            var r := RecordOf(Section(first, block));
            now == if first == [] || block == [] then Prepend(done, next)
                   else if r.None? then Outcome(done, true)
                   else Prepend(done + [r.value], next)
  {
    var s, rest := Section(first, block), Sections(Fields(lines[0]), [], lines[1..]);
    assert Sections(first, block, lines) == Flush(first, block) + rest;
    if first == [] || block == [] {
      assert [] + rest == rest;
    } else {
      assert ([s] + rest)[1..] == rest;
      var r, more := RecordOf(s), Collect(rest).records;
      if r.None? {
        assert done + [] == done;
      } else {
        assert done + ([r.value] + more) == done + [r.value] + more;
      }
    }
  }

  lemma ExtendSection(first: seq<string>, block: seq<string>, lines: seq<string>)
    requires |lines| > 1 && !IsHeader(Fields(lines[0]))
    ensures Ahead(first, block, lines) == Ahead(first, block + [lines[0]], lines[1..])
  {
  }

  /**
   * One loop serves both modes: the grouped result is the wrapping sum of the records the other
   * mode lists, and both fail on the same texts.
   */
  method MemoryMaps(lines: seq<string>, grouped: bool) returns (ret: seq<MemoryMap>, failed: bool)
    ensures failed == Records(lines).failed
    ensures !grouped ==> ret == Records(lines).records
    ensures grouped ==> |ret| == 1 && ret[0] == Sum(Records(lines).records) && ret[0].path == ""
    ensures grouped ==> forall k :: 0 <= k < |KEYS| ==> Values(ret[0])[k] == Total(Records(lines).records, k) % TWO64
  {
    ret, failed := ReadMaps(lines, grouped);
    if grouped {
      SumMeaning(Records(lines).records, 0);
      forall k | 0 <= k < |KEYS| ensures Values(ret[0])[k] == Total(Records(lines).records, k) % TWO64 {
        SumMeaning(Records(lines).records, k);
      }
    }
  }

  /** The loop over the lines. */
  method ReadMaps(lines: seq<string>, grouped: bool) returns (ret: seq<MemoryMap>, failed: bool)
    ensures failed == Records(lines).failed
    ensures ret == if grouped then [Sum(Records(lines).records)] else Records(lines).records
  {
    ret := if grouped then [ZERO] else [];
    var firstLine: seq<string>, blocks: seq<string> := [], [];
    ghost var done: seq<MemoryMap> := [];
    assert lines[0..] == lines;
    for i := 0 to |lines|
      invariant Records(lines) == Prepend(done, Ahead(firstLine, blocks, lines[i..]))
      invariant ret == Shown(done, grouped)
    {
      ghost var left := lines[i..];
      assert left[0] == lines[i] && left[1..] == lines[i + 1..];
      var fields := Fields(lines[i]);
      if IsHeader(fields) || i == |lines| - 1 {
        CloseSection(firstLine, blocks, left, done);
        if firstLine != [] && blocks != [] {
          var g := GetBlock(firstLine, blocks);
          if g.None? {
            return ret, true;
          }
          ret := AddRecord(ret, g.value, grouped, done);
          done := done + [g.value];
        }
        blocks := [];
        firstLine := fields;
      } else {
        ExtendSection(firstLine, blocks, left);
        blocks := blocks + [lines[i]];
      }
    }
    assert done + [] == done;
    failed := false;
  }

  method AddRecord(ret: seq<MemoryMap>, g: MemoryMap, grouped: bool, ghost done: seq<MemoryMap>) returns (r: seq<MemoryMap>)
    requires ret == Shown(done, grouped)
    ensures r == Shown(done + [g], grouped)
  {
    ShownOneMore(done, g, grouped);
    if grouped {
      r := [AddTo(ret[0], g)];
    } else {
      r := ret + [g];
    }
  }

  /* ---- well-formed texts ---- */

  /** A mapping as text: a header line and at least one attribute line. */
  datatype Mapping = Mapping(header: string, attributes: seq<string>)

  predicate WellFormed(m: Mapping) {
    && IsHeader(Fields(m.header)) && m.attributes != []
    && forall i :: 0 <= i < |m.attributes| ==> !IsHeader(Fields(m.attributes[i]))
  }

  function LinesOf(ms: seq<Mapping>): seq<string> {
    if ms == [] then [] else [ms[0].header] + ms[0].attributes + LinesOf(ms[1..])
  }

  function SectionOf(m: Mapping): Section {
    Section(Fields(m.header), m.attributes)
  }

  function SectionsOf(ms: seq<Mapping>): seq<Section> {
    if ms == [] then [] else [SectionOf(ms[0])] + SectionsOf(ms[1..])
  }

  lemma {:induction false} AttributesAccumulate(first: seq<string>, block: seq<string>, more: seq<string>, rest: seq<string>)
    requires rest != [] && forall i :: 0 <= i < |more| ==> !IsHeader(Fields(more[i]))
    ensures Sections(first, block, more + rest) == Sections(first, block + more, rest)
    decreases |more|
  {
    if more == [] {
      assert more + rest == rest && block + more == block;
    } else {
      assert (more + rest)[0] == more[0] && (more + rest)[1..] == more[1..] + rest;
      AttributesAccumulate(first, block + [more[0]], more[1..], rest);
      assert block + [more[0]] + more[1..] == block + more;
    }
  }

  lemma OneMapping(first: seq<string>, block: seq<string>, m: Mapping, rest: seq<string>)
    requires WellFormed(m) && rest != []
    ensures Sections(first, block, [m.header] + m.attributes + rest)
         == Flush(first, block) + Sections(Fields(m.header), m.attributes, rest)
  {
    var lines := [m.header] + m.attributes + rest;
    assert lines[0] == m.header && lines[1..] == m.attributes + rest;
    AttributesAccumulate(Fields(m.header), [], m.attributes, rest);
    assert [] + m.attributes == m.attributes;
  }

  /** The line that closes the text always ends the last section and is otherwise ignored. */
  lemma {:induction false} SectionsOfText(first: seq<string>, block: seq<string>, ms: seq<Mapping>, last: string)
    requires forall i :: 0 <= i < |ms| ==> WellFormed(ms[i])
    ensures Sections(first, block, LinesOf(ms) + [last]) == Flush(first, block) + SectionsOf(ms)
    decreases |ms|
  {
    if ms == [] {
      assert LinesOf(ms) + [last] == [last];
    } else {
      var rest := LinesOf(ms[1..]) + [last];
      OneMapping(first, block, ms[0], rest);
      assert LinesOf(ms) + [last] == [ms[0].header] + ms[0].attributes + rest;
      SectionsOfText(Fields(ms[0].header), ms[0].attributes, ms[1..], last);
    }
  }

  /** Well formed, and every value of it a number. */
  predicate Readable(m: Mapping) {
    WellFormed(m) && RecordOf(SectionOf(m)).Some?
  }

  lemma {:induction false} CollectAll(ms: seq<Mapping>)
    requires forall i :: 0 <= i < |ms| ==> RecordOf(SectionOf(ms[i])).Some?
    ensures !Collect(SectionsOf(ms)).failed && |Collect(SectionsOf(ms)).records| == |ms|
    ensures forall i :: 0 <= i < |ms| ==> Collect(SectionsOf(ms)).records[i] == RecordOf(SectionOf(ms[i])).value
  {
    if ms != [] {
      CollectAll(ms[1..]);
      assert SectionsOf(ms)[1..] == SectionsOf(ms[1..]);
    }
  }

  /** A newline-terminated text of well-formed mappings gives one record per mapping, the last included. */
  lemma OneRecordPerMapping(ms: seq<Mapping>)
    requires forall i :: 0 <= i < |ms| ==> Readable(ms[i])
    requires AllFree(LinesOf(ms), '\n')
    ensures var out := Records(SplitOn(Terminated(LinesOf(ms), '\n'), '\n'));
            && !out.failed && |out.records| == |ms|
            && forall i :: 0 <= i < |ms| ==> Some(out.records[i]) == RecordOf(SectionOf(ms[i]))
  {
    var lines := LinesOf(ms);
    SplitOnTerminated(lines, '\n', "");
    SplitOnNone("", '\n');
    assert Terminated(lines, '\n') + "" == Terminated(lines, '\n');
    SectionsOfText([], [], ms, "");
    assert Flush([], []) + SectionsOf(ms) == SectionsOf(ms);
    CollectAll(ms);
  }

  /* ---- what a block means ---- */

  /** The value of the last attribute with a key. */
  function LastValue(attributes: seq<Attribute>, key: string): (r: Option<nat>)
    ensures r.Some? ==> Attribute(key, r.value) in attributes
    ensures r.None? ==> forall a :: a in attributes && a.Attribute? ==> a.key != key
  {
    if attributes == [] then None
    else
      var n := |attributes| - 1;
      assert attributes == attributes[..n] + [attributes[n]];
      if attributes[n].Attribute? && attributes[n].key == key then Some(attributes[n].value)
      else LastValue(attributes[..n], key)
  }

  /** Each key sets its own counter and no other. */
  lemma SetFieldMeaning(m: MemoryMap, key: string, t: nat, k: nat)
    requires k < 10
    ensures Values(SetField(m, key, t))[k] == if key == KEYS[k] then t else Values(m)[k]
    ensures SetField(m, key, t).path == m.path
  {
  }

  lemma {:induction false} ReadBlockStep(m: MemoryMap, attributes: seq<Attribute>, a: Attribute)
    ensures ReadBlock(m, attributes + [a]) ==
              var r := ReadBlock(m, attributes);
              if r.None? || a.NotANumber? then None
              else if a.Ignored? then r
              else Some(SetField(r.value, a.key, a.value))
    decreases |attributes|
  {
    hide SetField;
    if attributes == [] {
      assert attributes + [a] == [a] && [a][1..] == [];
    } else {
      var b := attributes[0];
      assert (attributes + [a])[1..] == attributes[1..] + [a];
      if b.Ignored? {
        ReadBlockStep(m, attributes[1..], a);
      } else if b.Attribute? {
        ReadBlockStep(SetField(m, b.key, b.value), attributes[1..], a);
      }
    }
  }

  /**
   * A block fails exactly when one of its values is no number. Otherwise each counter is the value of
   * the last line with its key, in whatever order and among whatever other lines, and 0 without one.
   */
  lemma {:induction false} BlockMeaning(m: MemoryMap, attributes: seq<Attribute>, k: nat)
    requires k < 10
    ensures ReadBlock(m, attributes).None? <==> NotANumber in attributes
    ensures var r, last := ReadBlock(m, attributes), LastValue(attributes, KEYS[k]);
            r.Some? ==> r.value.path == m.path && Values(r.value)[k] == if last.Some? then last.value else Values(m)[k]
    decreases |attributes|
  {
    if attributes != [] {
      hide SetField, Values;
      var n := |attributes| - 1;
      var a := attributes[n];
      assert attributes == attributes[..n] + [a];
      BlockMeaning(m, attributes[..n], k);
      ReadBlockStep(m, attributes[..n], a);
      if a.Attribute? && ReadBlock(m, attributes[..n]).Some? {
        SetFieldMeaning(ReadBlock(m, attributes[..n]).value, a.key, a.value, k);
      }
    }
  }

  lemma SameRecord(a: MemoryMap, b: MemoryMap)
    requires a.path == b.path && forall k :: 0 <= k < 10 ==> Values(a)[k] == Values(b)[k]
    ensures a == b
  {
    assert Values(a) == Values(b);
    assert Values(a)[0] == a.size && Values(a)[1] == a.rss && Values(a)[2] == a.pss && Values(a)[3] == a.sharedClean;
    assert Values(a)[4] == a.sharedDirty && Values(a)[5] == a.privateClean && Values(a)[6] == a.privateDirty;
    assert Values(a)[7] == a.referenced && Values(a)[8] == a.anonymous && Values(a)[9] == a.swap;
  }

  /* ---- blocks as the kernel writes them, read back ---- */

  /** A line of a block: a number behind any white space, with or without its unit, or the flags. */
  datatype Item = Number(key: string, pad: string, n: nat, unit: bool) | Flags(text: string)

  function AttributeLine(i: Item): string {
    match i
    case Number(key, pad, n, unit) => key + ":" + (pad + Decimal(n) + if unit then " kB" else "")
    case Flags(text) => "VmFlags:" + text
  }

  /** Keys of smaps attributes are letters and underscores; the flags line alone has a 'V'. */
  predicate IsKeyChar(c: char) {
    ('a' <= c <= 'z' || 'A' <= c <= 'Z' || c == '_') && c != 'V'
  }

  predicate IsKey(key: string) {
    key != "" && forall i :: 0 <= i < |key| ==> IsKeyChar(key[i])
  }

  predicate ValidItem(i: Item) {
    match i
    case Number(key, pad, n, _) => IsKey(key) && pad != "" && AllSpace(pad) && '\n' !in pad && n < TWO64
    case Flags(text) => (text == "" || IsSpace(text[0])) && '\n' !in text
  }

  lemma {:induction false} TrimLeftPad(pad: string, rest: string)
    requires AllSpace(pad) && (rest == "" || !IsSpace(rest[0]))
    ensures TrimLeft(pad + rest, IsSpace) == rest
  {
    if pad == "" {
      assert pad + rest == rest;
    } else {
      assert (pad + rest)[1..] == pad[1..] + rest;
      TrimLeftPad(pad[1..], rest);
    }
  }

  lemma TrimNumber(pad: string, n: nat, unit: bool)
    requires AllSpace(pad)
    ensures TrimSpace(TrimSuffix(pad + Decimal(n) + if unit then " kB" else "", " kB")) == Decimal(n)
  {
    hide Decimal;
    var d := Decimal(n);
    var s := pad + d + if unit then " kB" else "";
    assert IsDigit(d[0]) && IsDigit(d[|d| - 1]);
    assert TrimSuffix(s, " kB") == pad + d by {
      if unit {
        assert s[|s| - 3..] == " kB" && s[..|s| - 3] == pad + d;
      } else {
        assert s == pad + d;
        if |s| >= 3 {
          assert s[|s| - 3..][2] == d[|d| - 1];
        }
      }
    }
    TrimLeftPad(pad, d);
  }

  function AttributeOf(i: Item): Attribute {
    if i.Number? then Attribute(i.key, i.n) else Ignored
  }

  /** A line is never taken for a header, and its number is read back. */
  lemma AttributeRoundTrip(i: Item)
    requires ValidItem(i)
    ensures ReadAttribute(AttributeLine(i)) == AttributeOf(i)
    ensures !IsHeader(Fields(AttributeLine(i))) && '\n' !in AttributeLine(i)
  {
    hide ReadAttribute, IsHeader, Fields, Decimal;
    if i.Number? {
      NumberRoundTrip(i);
      assert IsSpace('\n') && '\n' !in Decimal(i.n);
    } else {
      FlagsIgnored(i.text);
    }
  }

  lemma FlagsIgnored(text: string)
    requires text == "" || IsSpace(text[0])
    ensures ReadAttribute("VmFlags:" + text) == Ignored && !IsHeader(Fields("VmFlags:" + text))
  {
    hide Fields, SplitOn, TrimSpace, TrimSuffix;
    var line := "VmFlags:" + text;
    assert line[..7] == "VmFlags" && HasPrefix(line, "VmFlags");
    FirstField("VmFlags:", text);
    assert HasSuffix("VmFlags:", ":");
  }

  lemma FirstField(head: string, rest: string)
    requires head != "" && Solid(head, IsSpace) && (rest == "" || IsSpace(rest[0]))
    ensures Fields(head + rest) != [] && Fields(head + rest)[0] == head
  {
    FieldsHead(head, rest, IsSpace);
  }

  lemma NumberRoundTrip(i: Item)
    requires i.Number? && ValidItem(i)
    ensures ReadAttribute(AttributeLine(i)) == Attribute(i.key, i.n) && !IsHeader(Fields(AttributeLine(i)))
  {
    hide Fields, SplitOn, TrimSpace, TrimSuffix, Decimal, ParseUint64, Contains;
    var tail := i.pad + Decimal(i.n) + if i.unit then " kB" else "";
    var line := AttributeLine(i);
    assert line == i.key + [':'] + tail && line == i.key + ":" + tail;
    assert ':' !in tail && 'V' !in line && ':' !in i.key;
    NotContained(line, "VmFlags");
    SplitOnHead(i.key, ':', tail);
    SplitOnNone(tail, ':');
    TrimNumber(i.pad, i.n, i.unit);
    ParseUint64OfDecimal(i.n);
    FirstField(i.key + ":", tail);
    assert HasSuffix(i.key + ":", ":");
  }

  /** A mapping with a block of such lines. */
  function Print(header: string, items: seq<Item>): (r: Mapping)
    ensures r.header == header && |r.attributes| == |items|
    ensures forall i :: 0 <= i < |items| ==> r.attributes[i] == AttributeLine(items[i])
  {
    Mapping(header, seq(|items|, i requires 0 <= i < |items| => AttributeLine(items[i])))
  }

  predicate ValidBlock(items: seq<Item>) {
    items != [] && forall i :: 0 <= i < |items| ==> ValidItem(items[i])
  }

  /** The lines carry the record: every line with a counter's key has its value, and a counter without one is 0. */
  ghost predicate Carries(items: seq<Item>, m: MemoryMap) {
    forall k :: 0 <= k < 10 ==>
      && (forall i :: i in items && i.Number? && i.key == KEYS[k] ==> i.n == Values(m)[k])
      && ((forall i :: i in items && i.Number? ==> i.key != KEYS[k]) ==> Values(m)[k] == 0)
  }

  lemma AttributesOfPrinted(header: string, items: seq<Item>)
    requires ValidBlock(items)
    ensures WellFormed(Print(header, items)) <==> IsHeader(Fields(header))
    ensures AllFree(Print(header, items).attributes, '\n')
    ensures var attributes := AttributesOf(Print(header, items).attributes);
            |attributes| == |items| && forall i :: 0 <= i < |items| ==> attributes[i] == AttributeOf(items[i])
  {
    hide IsHeader, Fields, ReadAttribute, AttributeLine, ValidItem;
    forall i | 0 <= i < |items|
      ensures ReadAttribute(AttributeLine(items[i])) == AttributeOf(items[i])
      ensures !IsHeader(Fields(AttributeLine(items[i]))) && '\n' !in AttributeLine(items[i])
    {
      AttributeRoundTrip(items[i]);
    }
  }

  lemma CarriedValue(items: seq<Item>, attributes: seq<Attribute>, m: MemoryMap, k: nat)
    requires Carries(items, m) && k < 10
    requires |attributes| == |items| && forall i :: 0 <= i < |items| ==> attributes[i] == AttributeOf(items[i])
    ensures LastValue(attributes, KEYS[k]) == Some(Values(m)[k]) || (LastValue(attributes, KEYS[k]) == None && Values(m)[k] == 0)
  {
    hide Values;
    var last := LastValue(attributes, KEYS[k]);
    if last.Some? {
      var j :| 0 <= j < |attributes| && attributes[j] == Attribute(KEYS[k], last.value);
      assert items[j] in items && items[j].key == KEYS[k];
    } else {
      forall i | i in items && i.Number? ensures i.key != KEYS[k] {
        var j :| 0 <= j < |items| && items[j] == i;
        assert attributes[j] in attributes;
      }
    }
  }

  /* ---- headers as the kernel writes them ---- */

  /** The five columns of a header line (addresses, permissions, offset, device, inode) and their padding. */
  datatype Header = Header(fields: seq<string>, pads: seq<string>)

  predicate ValidHeader(h: Header, path: string) {
    && |h.fields| == |h.pads| == 5 && ValidColumns(h.fields, h.pads, path)
    && !HasSuffix(h.fields[0], ":") && AllFree(h.pads, '\n') && '\n' !in path
  }

  function HeaderLine(h: Header, path: string): string
    requires ValidHeader(h, path)
  {
    Padded(h.fields, h.pads) + path
  }

  /** What a path is shown as: its words, joined by single blanks. */
  function ShownPath(path: string): string {
    Join(Fields(path), " ")
  }

  /** The path behind any such header is shown as its words, and so as itself exactly when it is single-spaced. */
  lemma HeaderReadBack(h: Header, path: string)
    requires ValidHeader(h, path)
    ensures IsHeader(Fields(HeaderLine(h, path))) && '\n' !in HeaderLine(h, path)
    ensures PathOf(Fields(HeaderLine(h, path))) == ShownPath(path)
    ensures PathOf(Fields(HeaderLine(h, path))) == path <==> SingleSpaced(path)
  {
    hide Fields, SingleSpaced;
    FieldsOfColumns(h.fields, h.pads, path);
    JoinOfFields(path);
    assert Fields(HeaderLine(h, path))[0] == h.fields[0];
    assert (h.fields + Fields(path))[5..] == Fields(path);
    ColumnsOnOneLine(h.fields, h.pads);
  }

  /** Whatever white space stands between two words of a path, one blank is shown. */
  lemma WhiteSpaceShrinks(a: string, pad: string, b: string)
    requires IsWord(a) && IsWord(b) && pad != "" && AllSpace(pad)
    ensures ShownPath(a + pad + b) == a + " " + b
  {
    hide FieldsBy, Solid, AllSpace;
    var rest := pad + b;
    assert IsSpace(rest[0]) by {
      PadStart(pad);
    }
    FieldsHead(a, rest, IsSpace);
    FieldsBehindPad(pad, b);
    FieldsHead(b, "", IsSpace);
    FieldsOfNothing();
    assert a + pad + b == a + rest && b + "" == b;
    assert Fields(a + pad + b) == [a, b];
    assert [a, b][1..] == [b];
    assert Join([a, b], " ") == a + " " + Join([b], " ");
  }

  lemma PadStart(pad: string)
    requires pad != "" && AllSpace(pad)
    ensures IsSpace(pad[0])
  {
  }

  /** A file whose name has two blanks in a row is shown under another name. */
  lemma DoubleBlankIsLost(h: Header)
    requires ValidHeader(h, "/a  b")
    ensures PathOf(Fields(HeaderLine(h, "/a  b"))) == "/a b"
  {
    hide PathOf, HeaderLine, ValidHeader, ShownPath, SingleSpaced;
    HeaderReadBack(h, "/a  b");
    WhiteSpaceShrinks("/a", "  ", "b");
    assert "/a" + "  " + "b" == "/a  b" && "/a" + " " + "b" == "/a b";
  }

  /* ---- records and texts, read back ---- */

  /** The record as it is shown: only its path may differ. */
  function ShownRecord(m: MemoryMap): MemoryMap {
    m.(path := ShownPath(m.path))
  }

  lemma ShownRecordExactly(m: MemoryMap)
    ensures ShownRecord(m) == m <==> SingleSpaced(m.path)
  {
    JoinOfFields(m.path);
  }

  /**
   * A block that carries a record, below any header with its path, is read whatever the order, padding,
   * units and other lines: all counters exactly, and the record itself if and only if its path is
   * single-spaced.
   */
  lemma RecordRoundTrip(h: Header, items: seq<Item>, m: MemoryMap)
    requires ValidHeader(h, m.path) && ValidBlock(items) && Carries(items, m)
    ensures WellFormed(Print(HeaderLine(h, m.path), items))
    ensures RecordOf(SectionOf(Print(HeaderLine(h, m.path), items))) == Some(ShownRecord(m))
    ensures RecordOf(SectionOf(Print(HeaderLine(h, m.path), items))) == Some(m) <==> SingleSpaced(m.path)
  {
    hide IsHeader, Fields, ReadAttribute, ReadBlock, Carries, ValidBlock, WellFormed, PathOf, ShownPath, SingleSpaced, ValidHeader;
    var header := HeaderLine(h, m.path);
    HeaderReadBack(h, m.path);
    ShownRecordExactly(m);
    CountersReadBack(header, items, m, ShownRecord(m));
  }

  lemma CountersReadBack(header: string, items: seq<Item>, m: MemoryMap, shown: MemoryMap)
    requires IsHeader(Fields(header)) && PathOf(Fields(header)) == shown.path && shown == m.(path := shown.path)
    requires ValidBlock(items) && Carries(items, m)
    ensures WellFormed(Print(header, items)) && RecordOf(SectionOf(Print(header, items))) == Some(shown)
  {
    hide IsHeader, Fields, ReadAttribute, Values, ReadBlock, Carries, ValidBlock, WellFormed, PathOf;
    AttributesOfPrinted(header, items);
    var attributes := AttributesOf(Print(header, items).attributes);
    var start := ZERO.(path := PathOf(Fields(header)));
    assert NotANumber !in attributes;
    BlockMeaning(start, attributes, 0);
    var r := ReadBlock(start, attributes).value;
    SameValues(m, shown);
    forall k | 0 <= k < 10 ensures Values(r)[k] == Values(shown)[k] {
      BlockMeaning(start, attributes, k);
      CarriedValue(items, attributes, m, k);
      ZeroValues(start, k);
    }
    SameRecord(r, shown);
  }

  lemma SameValues(m: MemoryMap, shown: MemoryMap)
    requires shown == m.(path := shown.path)
    ensures Values(m) == Values(shown)
  {
  }

  lemma ZeroValues(m: MemoryMap, k: nat)
    requires m == ZERO.(path := m.path) && k < 10
    ensures Values(m)[k] == 0
  {
  }

  /** In particular the order of the lines does not matter. */
  lemma OrderDoesNotMatter(h: Header, items: seq<Item>, other: seq<Item>, m: MemoryMap)
    requires ValidHeader(h, m.path)
    requires ValidBlock(items) && Carries(items, m) && multiset(items) == multiset(other)
    ensures RecordOf(SectionOf(Print(HeaderLine(h, m.path), other))) == Some(ShownRecord(m))
  {
    hide ValidHeader, HeaderLine, RecordOf, ShownRecord, Values;
    assert forall i :: i in items <==> i in multiset(items);
    assert forall i :: i in other <==> i in multiset(other);
    assert |multiset(items)| == |items| && |multiset(other)| == |other|;
    forall j | 0 <= j < |other| ensures ValidItem(other[j]) {
      assert other[j] in items;
    }
    assert Carries(other, m);
    RecordRoundTrip(h, other, m);
  }

  /** Blocks below their headers, as one text. */
  function PrintAll(headers: seq<string>, blocks: seq<seq<Item>>): (r: seq<Mapping>)
    requires |headers| == |blocks|
    ensures |r| == |blocks| && forall i :: 0 <= i < |r| ==> r[i] == Print(headers[i], blocks[i])
  {
    seq(|blocks|, i requires 0 <= i < |blocks| => Print(headers[i], blocks[i]))
  }

  lemma {:induction false} LinesHaveNoNewline(ms: seq<Mapping>)
    requires forall i :: 0 <= i < |ms| ==> '\n' !in ms[i].header && AllFree(ms[i].attributes, '\n')
    ensures AllFree(LinesOf(ms), '\n')
  {
    if ms != [] {
      LinesHaveNoNewline(ms[1..]);
    }
  }

  predicate ValidHeaders(hs: seq<Header>, ms: seq<MemoryMap>)
    requires |hs| == |ms|
  {
    forall i :: 0 <= i < |ms| ==> ValidHeader(hs[i], ms[i].path)
  }

  function HeaderLines(hs: seq<Header>, ms: seq<MemoryMap>): (r: seq<string>)
    requires |hs| == |ms| && ValidHeaders(hs, ms)
    ensures |r| == |ms| && forall i :: 0 <= i < |r| ==> r[i] == HeaderLine(hs[i], ms[i].path)
  {
    seq(|ms|, i requires 0 <= i < |ms| => HeaderLine(hs[i], ms[i].path))
  }

  function ShownRecords(ms: seq<MemoryMap>): (r: seq<MemoryMap>)
    ensures |r| == |ms| && forall i :: 0 <= i < |r| ==> r[i] == ShownRecord(ms[i])
  {
    seq(|ms|, i requires 0 <= i < |ms| => ShownRecord(ms[i]))
  }

  /**
   * Any list of records, carried by such blocks below such headers in a newline-terminated text, is
   * read in order and complete: itself if and only if every path is single-spaced.
   */
  lemma TextRoundTrip(hs: seq<Header>, blocks: seq<seq<Item>>, ms: seq<MemoryMap>)
    requires |hs| == |blocks| == |ms| && ValidHeaders(hs, ms)
    requires forall i :: 0 <= i < |ms| ==> ValidBlock(blocks[i]) && Carries(blocks[i], ms[i])
    ensures var text := Terminated(LinesOf(PrintAll(HeaderLines(hs, ms), blocks)), '\n');
            && Records(SplitOn(text, '\n')) == Outcome(ShownRecords(ms), false)
            && (Records(SplitOn(text, '\n')) == Outcome(ms, false) <==> forall i :: 0 <= i < |ms| ==> SingleSpaced(ms[i].path))
  {
    hide Records, WellFormed, RecordOf, SectionOf, SplitOn, Terminated, LinesOf, Carries, ValidBlock, ShownRecord, SingleSpaced,
      HeaderLine, ValidHeader;
    var ps := PrintAll(HeaderLines(hs, ms), blocks);
    forall i | 0 <= i < |ps|
      ensures WellFormed(ps[i]) && RecordOf(SectionOf(ps[i])) == Some(ShownRecord(ms[i]))
      ensures '\n' !in ps[i].header && AllFree(ps[i].attributes, '\n')
    {
      RecordRoundTrip(hs[i], blocks[i], ms[i]);
      HeaderReadBack(hs[i], ms[i].path);
      AttributesOfPrinted(HeaderLine(hs[i], ms[i].path), blocks[i]);
    }
    LinesHaveNoNewline(ps);
    OneRecordPerMapping(ps);
    assert Records(SplitOn(Terminated(LinesOf(ps), '\n'), '\n')).records == ShownRecords(ms);
    AllShownExactly(ms);
  }

  lemma AllShownExactly(ms: seq<MemoryMap>)
    ensures ShownRecords(ms) == ms <==> forall i :: 0 <= i < |ms| ==> SingleSpaced(ms[i].path)
  {
    hide ShownRecord, SingleSpaced;
    forall i | 0 <= i < |ms| ensures ShownRecords(ms)[i] == ms[i] <==> SingleSpaced(ms[i].path) {
      ShownRecordExactly(ms[i]);
    }
    if forall i :: 0 <= i < |ms| ==> SingleSpaced(ms[i].path) {
      assert forall i :: 0 <= i < |ms| ==> ShownRecords(ms)[i] == ms[i];
    }
  }

  lemma {:induction false} ShownTotal(ms: seq<MemoryMap>, k: nat)
    requires k < |KEYS|
    ensures Total(ShownRecords(ms), k) == Total(ms, k)
  {
    if ms != [] {
      hide Values, ShownPath;
      var n := |ms| - 1;
      ShownTotal(ms[..n], k);
      SameValues(ms[n], ShownRecord(ms[n]));
      assert ShownRecords(ms)[..n] == ShownRecords(ms[..n]);
    }
  }

  /** Grouped, the same text gives one record without path: the plain sums of the records' counters, modulo 2^64. */
  lemma GroupedTextRoundTrip(hs: seq<Header>, blocks: seq<seq<Item>>, ms: seq<MemoryMap>, k: nat)
    requires |hs| == |blocks| == |ms| && ValidHeaders(hs, ms) && k < |KEYS|
    requires forall i :: 0 <= i < |ms| ==> ValidBlock(blocks[i]) && Carries(blocks[i], ms[i])
    ensures var text := Terminated(LinesOf(PrintAll(HeaderLines(hs, ms), blocks)), '\n');
            var records := Records(SplitOn(text, '\n')).records;
            Sum(records).path == "" && Values(Sum(records))[k] == Total(ms, k) % TWO64
  {
    hide *;
    TextRoundTrip(hs, blocks, ms);
    SumMeaning(ShownRecords(ms), k);
    ShownTotal(ms, k);
  }
}
