/**
 * The SMBIOS table walk: structures of a formatted area followed by a string set that two NULs
 * end (sections 6.1.2 and 6.1.3 of DMTF DSP0134), searched for the first Processor Information
 * structure (section 7.5).
 */
module Smbios {
  import opened Text
  import opened Hexadecimal

  const HEADER_SIZE: nat := 8
  const END_OF_TABLE: byte := 127
  const PROCESSOR: byte := 4
  const PROCESSOR_MIN_LENGTH: byte := 0x18

  datatype Info = Info(family: byte, processorId: string)

  datatype Stop = Matched | AtEndOfTable | Truncated | PastEnd | OuterFailsafe | InnerFailsafe | ShortProcessor

  /* ---- the chain of structures, without counters ---- */

  /** Behind the first two NULs at or after `j`; the last byte when there are none. */
  function StringsEnd(buf: seq<byte>, j: nat): (e: nat)
    ensures j <= e
    ensures j + 1 < |buf| ==> j < e <= |buf|
    decreases |buf| - j
  {
    if j + 1 >= |buf| then j
    else if buf[j] == 0 && buf[j + 1] == 0 then j + 2
    else StringsEnd(buf, j + 1)
  }

  function Next(buf: seq<byte>, i: nat): (n: nat)
    requires i + 4 <= |buf|
    ensures i < n
  {
    StringsEnd(buf, i + buf[i + 1] as int)
  }

  predicate Qualifies(buf: seq<byte>, i: nat)
    requires i + 4 <= |buf|
  {
    buf[i] == PROCESSOR && buf[i + 1] >= PROCESSOR_MIN_LENGTH && i + buf[i + 1] as int <= |buf|
  }

  /** The first qualifying structure of the chain that starts at `i` and stops at end-of-table. */
  function FirstProcessor(buf: seq<byte>, i: nat): (r: Option<nat>)
    ensures r.Some? ==> i <= r.value && r.value + 24 <= |buf| && Qualifies(buf, r.value)
    decreases |buf| - i
  {
    if i + 4 > |buf| || buf[i] == END_OF_TABLE then None
    else if Qualifies(buf, i) then Some(i)
    else FirstProcessor(buf, Next(buf, i))
  }

  function InfoAt(buf: seq<byte>, i: nat): Info
    requires i + 16 <= |buf|
  {
    Info(buf[i + 6], HexReversed(buf[i + 8..i + 16]))
  }

  function ProcessorInfo(buf: seq<byte>): Option<Info> {
    var p := FirstProcessor(buf, HEADER_SIZE);
    if p.Some? then Some(InfoAt(buf, p.value)) else None
  }

  /* ---- the walk as written, with both failsafe counters ---- */

  function Register(bs: seq<byte>): nat
    requires |bs| == 4
  {
    bs[0] as int + bs[1] as int * 0x100 + bs[2] as int * 0x1_0000 + bs[3] as int * 0x100_0000
  }

  lemma RegistersAreReversedBytes(bs: seq<byte>)
    requires |bs| == 8
    ensures Hex(Register(bs[4..]), 8) + Hex(Register(bs[..4]), 8) == HexReversed(bs)
  {
    forall r: seq<byte> | |r| == 4 ensures Hex(Register(r), 8) == HexReversed(r) {
      assert LittleEndian(r[3..]) == r[3] as int + 0x100 * LittleEndian([]);
      assert LittleEndian(r[2..]) == r[2] as int + 0x100 * LittleEndian(r[3..]);
      assert LittleEndian(r[1..]) == r[1] as int + 0x100 * LittleEndian(r[2..]);
      HexOfLittleEndian(r);
    }
    HexReversedConcat(bs[..4], bs[4..]);
    assert bs[..4] + bs[4..] == bs;
  }

  /** For every buffer: the counter-free result, and no failsafe is ever the reason to stop. */
  method Walk(buf: seq<byte>) returns (found: Option<Info>, stop: Stop)
    ensures found == ProcessorInfo(buf)
    ensures stop != OuterFailsafe && stop != InnerFailsafe && stop != ShortProcessor
    ensures stop == Matched <==> found.Some?
  {
    found, stop := None, PastEnd;
    var i := HEADER_SIZE;
    var maxIterations := |buf| * 2;
    var iterations := 0;
    while i < |buf| && iterations < maxIterations
      invariant HEADER_SIZE <= i && 0 <= iterations <= i - HEADER_SIZE
      invariant found == None && stop == PastEnd
      invariant FirstProcessor(buf, HEADER_SIZE) == FirstProcessor(buf, i)
      decreases |buf| - i
    {
      iterations := iterations + 1;
      if i + 4 > |buf| {
        stop := Truncated;
        break;
      }
      var typ, length := buf[i], buf[i + 1];
      if typ == END_OF_TABLE {
        stop := AtEndOfTable;
        break;
      }
      if typ == PROCESSOR && length >= PROCESSOR_MIN_LENGTH && i + length as int <= |buf| {
        if i + 16 > |buf| {
          stop := ShortProcessor;
          break;
        }
        var procIdBytes := buf[i + 8..i + 16];
        var eax := Register(procIdBytes[..4]);
        var edx := Register(procIdBytes[4..]);
        RegistersAreReversedBytes(procIdBytes);
        found, stop := Some(Info(buf[i + 6], Hex(edx, 8) + Hex(eax, 8))), Matched;
        break;
      }
      var j, inner := SkipStrings(buf, i + length as int);
      if inner >= |buf| {
        stop := InnerFailsafe;
        break;
      }
      i := j;
    }
    if stop == PastEnd && i < |buf| {
      stop := OuterFailsafe;
    }
  }

  /** The inner loop; it needs fewer iterations than there are bytes behind its start. */
  method SkipStrings(buf: seq<byte>, start: nat) returns (j: nat, inner: nat)
    ensures j == StringsEnd(buf, start)
    ensures inner == 0 || start + inner < |buf|
  {
    j, inner := start, 0;
    var maxInner := |buf|;
    while j + 1 < |buf| && inner < maxInner
      invariant start + inner == j
      invariant inner == 0 || j < |buf|
      invariant StringsEnd(buf, start) == StringsEnd(buf, j)
    {
      inner := inner + 1;
      if buf[j] == 0 && buf[j + 1] == 0 {
        j := j + 2;
        break;
      }
      j := j + 1;
    }
  }

  /* ---- a table written by firmware is walked structure by structure ---- */

  datatype Structure = Structure(formatted: seq<byte>, strings: seq<seq<byte>>)

  predicate WellFormed(s: Structure) {
    && 4 <= |s.formatted| < 0x100
    && s.formatted[1] as int == |s.formatted|
    && AllFree(s.strings, 0)
    && forall k :: 0 <= k < |s.strings| ==> s.strings[k] != []
  }

  function Encode(s: Structure): seq<byte> {
    s.formatted + (if s.strings == [] then [0, 0] else Terminated(s.strings, 0) + [0])
  }

  function Table(ss: seq<Structure>): seq<byte> {
    if ss == [] then [] else Encode(ss[0]) + Table(ss[1..])
  }

  predicate IsProcessor(s: Structure)
    requires WellFormed(s)
  {
    s.formatted[0] == PROCESSOR && |s.formatted| >= 24
  }

  /** No two NULs start before `e`, so the search may start at `e`. */
  lemma {:induction false} NoPairBefore(buf: seq<byte>, j: nat, e: nat)
    requires j <= e && e + 1 < |buf|
    requires forall k :: j <= k < e ==> buf[k] != 0 || buf[k + 1] != 0
    ensures StringsEnd(buf, j) == StringsEnd(buf, e)
    decreases |buf| - j
  {
    if j < e {
      NoPairBefore(buf, j + 1, e);
    }
  }

  lemma {:induction false} StringsEndOfSet(before: seq<byte>, strings: seq<seq<byte>>, after: seq<byte>)
    requires strings != [] && AllFree(strings, 0) && forall k :: 0 <= k < |strings| ==> strings[k] != []
    ensures StringsEnd(before + Terminated(strings, 0) + [0] + after, |before|)
         == |before| + |Terminated(strings, 0)| + 1
    decreases |strings|
  {
    var s := strings[0];
    var tail := Terminated(strings[1..], 0) + [0] + after;
    var buf := before + Terminated(strings, 0) + [0] + after;
    var e := |before| + |s|;
    assert buf == before + s + [0] + tail;
    assert forall k :: |before| <= k < e ==> buf[k] == s[k - |before|];
    if strings[1..] == [] {
      assert tail == [0] + after && buf[e] == 0 && buf[e + 1] == 0;
      NoPairBefore(buf, |before|, e);
    } else {
      assert tail[0] == strings[1][0] && buf[e + 1] == tail[0];
      NoPairBefore(buf, |before|, e + 1);
      StringsEndOfSet(before + s + [0], strings[1..], after);
      assert buf == before + s + [0] + Terminated(strings[1..], 0) + [0] + after;
    }
  }

  /** Stepping over an encoded structure lands on the byte behind it. */
  lemma NextOfEncoded(before: seq<byte>, s: Structure, after: seq<byte>)
    requires WellFormed(s)
    ensures var buf := before + Encode(s) + after;
            && |before| + 4 <= |buf|
            && Next(buf, |before|) == |before + Encode(s)|
  {
    var buf := before + Encode(s) + after;
    var front := before + s.formatted;
    assert buf[|before| + 1] == s.formatted[1];
    if s.strings == [] {
      assert buf[|front|] == 0 && buf[|front| + 1] == 0;
    } else {
      StringsEndOfSet(front, s.strings, after);
      assert buf == front + Terminated(s.strings, 0) + [0] + after;
    }
  }

  /** The bytes the walk looks at in an encoded structure are those of its formatted area. */
  lemma FormattedBytes(before: seq<byte>, s: Structure, after: seq<byte>, k: nat)
    requires k < |s.formatted|
    ensures |before| + |s.formatted| <= |before + Encode(s) + after|
    ensures (before + Encode(s) + after)[|before| + k] == s.formatted[k]
  {
  }

  lemma StepOver(before: seq<byte>, s: Structure, after: seq<byte>)
    requires WellFormed(s) && !IsProcessor(s) && s.formatted[0] != END_OF_TABLE
    ensures var buf := before + Encode(s) + after;
            FirstProcessor(buf, |before|) == FirstProcessor(buf, |before + Encode(s)|)
  {
    FormattedBytes(before, s, after, 0);
    FormattedBytes(before, s, after, 1);
    NextOfEncoded(before, s, after);
  }

  lemma {:induction false} WalkPast(before: seq<byte>, ss: seq<Structure>, after: seq<byte>)
    requires forall k :: 0 <= k < |ss| ==> WellFormed(ss[k]) && !IsProcessor(ss[k]) && ss[k].formatted[0] != END_OF_TABLE
    ensures FirstProcessor(before + Table(ss) + after, |before|)
         == FirstProcessor(before + Table(ss) + after, |before + Table(ss)|)
    decreases |ss|
  {
    if ss == [] {
      assert before + Table(ss) == before;
    } else {
      var front := before + Encode(ss[0]);
      assert front + Table(ss[1..]) == before + Table(ss);
      assert front + (Table(ss[1..]) + after) == before + Table(ss) + after;
      StepOver(before, ss[0], Table(ss[1..]) + after);
      WalkPast(front, ss[1..], after);
    }
  }

  lemma InfoOfEncoded(before: seq<byte>, p: Structure, rest: seq<byte>)
    requires WellFormed(p) && IsProcessor(p)
    ensures var buf := before + Encode(p) + rest;
            && |before| + 16 <= |buf|
            && FirstProcessor(buf, |before|) == Some(|before|)
            && InfoAt(buf, |before|) == Info(p.formatted[6], HexReversed(p.formatted[8..16]))
  {
    var buf := before + Encode(p) + rest;
    FormattedBytes(before, p, rest, 0);
    FormattedBytes(before, p, rest, 1);
    FormattedBytes(before, p, rest, 6);
    assert buf[|before| + 8..|before| + 16] == p.formatted[8..16];
  }

  /** The first processor structure of a well-formed table is the one reported, with its own bytes. */
  lemma FindsFirstProcessor(header: seq<byte>, ss: seq<Structure>, p: Structure, rest: seq<byte>)
    requires |header| == HEADER_SIZE
    requires forall k :: 0 <= k < |ss| ==> WellFormed(ss[k]) && !IsProcessor(ss[k]) && ss[k].formatted[0] != END_OF_TABLE
    requires WellFormed(p) && IsProcessor(p)
    ensures ProcessorInfo(header + Table(ss) + Encode(p) + rest)
         == Some(Info(p.formatted[6], HexReversed(p.formatted[8..16])))
  {
    var before := header + Table(ss);
    var buf := before + Encode(p) + rest;
    WalkPast(header, ss, Encode(p) + rest);
    assert buf == header + Table(ss) + (Encode(p) + rest);
    InfoOfEncoded(before, p, rest);
  }

  /** Nothing behind the end-of-table structure is looked at. */
  lemma StopsAtEndOfTable(header: seq<byte>, ss: seq<Structure>, end: Structure, rest: seq<byte>)
    requires |header| == HEADER_SIZE
    requires forall k :: 0 <= k < |ss| ==> WellFormed(ss[k]) && !IsProcessor(ss[k]) && ss[k].formatted[0] != END_OF_TABLE
    requires WellFormed(end) && end.formatted[0] == END_OF_TABLE
    ensures ProcessorInfo(header + Table(ss) + Encode(end) + rest) == None
  {
    var before := header + Table(ss);
    var buf := before + Encode(end) + rest;
    WalkPast(header, ss, Encode(end) + rest);
    assert buf == header + Table(ss) + (Encode(end) + rest);
    assert buf[|before|] == end.formatted[0];
  }
}

/** Enumerating the set bits of an affinity mask. */
module SetBits {
  predicate Bit(m: nat, k: nat) {
    if k == 0 then m % 2 == 1 else Bit(m / 2, k - 1)
  }

  /** Bitwise and. */
  function And(a: nat, b: nat): nat {
    if a == 0 || b == 0 then 0 else 2 * And(a / 2, b / 2) + (a % 2) * (b % 2)
  }

  function TrailingZeros(m: nat): nat
    requires m != 0
  {
    if m % 2 == 1 then 0 else 1 + TrailingZeros(m / 2)
  }

  lemma {:induction false} AndSelf(a: nat)
    ensures And(a, a) == a
  {
    if a != 0 {
      AndSelf(a / 2);
    }
  }

  lemma {:induction false} ZeroHasNoBits(k: nat)
    ensures !Bit(0, k)
  {
    if k != 0 {
      ZeroHasNoBits(k - 1);
    }
  }

  lemma {:induction false} LowestBit(m: nat, k: nat)
    requires m != 0
    ensures Bit(m, TrailingZeros(m))
    ensures k < TrailingZeros(m) ==> !Bit(m, k)
  {
    if m % 2 == 0 {
      LowestBit(m / 2, if k == 0 then 0 else k - 1);
    }
  }

  /** m & (m-1) loses exactly the lowest set bit. */
  lemma {:induction false} ClearsLowest(m: nat, k: nat)
    requires m != 0
    ensures And(m, m - 1) < m
    ensures Bit(And(m, m - 1), k) <==> Bit(m, k) && k != TrailingZeros(m)
    decreases m
  {
    var a := m / 2;
    if m % 2 == 1 {
      AndSelf(a);
      assert (m - 1) / 2 == a;
      assert And(m, m - 1) == m - 1 by {
        if a == 0 { assert m == 1; }
      }
    } else {
      assert (m - 1) / 2 == a - 1;
      ClearsLowest(a, if k == 0 then 0 else k - 1);
      assert And(m, m - 1) == 2 * And(a, a - 1);
    }
  }

  lemma {:induction false} BitsInWord(m: nat, k: nat, width: nat)
    requires m < Power2(width) && Bit(m, k)
    ensures k < width
  {
    if width == 0 {
      ZeroHasNoBits(k);
    } else if k != 0 {
      BitsInWord(m / 2, k - 1, width - 1);
    }
  }

  function Power2(n: nat): nat {
    if n == 0 then 1 else 2 * Power2(n - 1)
  }

  /** fn is called once for every set bit, from the lowest to the highest. */
  method ForEachSetBit(mask: nat, width: nat) returns (calls: seq<nat>)
    requires mask < Power2(width)
    ensures forall k: nat :: k in calls <==> Bit(mask, k)
    ensures forall k :: k in calls ==> k < width
    ensures forall i, j :: 0 <= i < j < |calls| ==> calls[i] < calls[j]
  {
    var m := mask;
    calls := [];
    while m != 0
      decreases m
      invariant forall k: nat :: Bit(mask, k) <==> k in calls || Bit(m, k)
      invariant forall i: nat, k: nat :: i < |calls| && Bit(m, k) ==> calls[i] < k
      invariant forall i, j :: 0 <= i < j < |calls| ==> calls[i] < calls[j]
    {
      var b := TrailingZeros(m);
      var next := And(m, m - 1);
      ClearsLowest(m, b);
      forall k: nat ensures (Bit(next, k) <==> Bit(m, k) && k != b) && (k < b ==> !Bit(m, k)) && Bit(m, b) && next < m {
        ClearsLowest(m, k);
        LowestBit(m, k);
      }
      calls := calls + [b];
      m := next;
    }
    forall k: nat ensures !Bit(0, k) && (Bit(mask, k) ==> k < width) {
      ZeroHasNoBits(k);
      if Bit(mask, k) {
        BitsInWord(mask, k, width);
      }
    }
  }
}
