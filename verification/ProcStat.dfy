/** Splitting /proc/<pid>/stat, whose second field may itself hold spaces and parentheses. */
module ProcStat {
  import opened Text

  const OPEN: byte := 40
  const CLOSE: byte := 41
  const SPACE: byte := 32

  /* ---- white space in UTF-8 bytes ---- */

  predicate IsSpaceByte(b: byte) {
    b == 32 || 9 <= b <= 13
  }

  /** The length of the white space character the bytes start with, or 0. */
  function SpaceAt(s: seq<byte>): (n: nat)
    ensures n <= |s| && n <= 3
  {
    if s == [] then 0
    else if IsSpaceByte(s[0]) then 1
    else if |s| >= 2 && s[0] == 0xC2 && (s[1] == 0x85 || s[1] == 0xA0) then 2
    else if |s| >= 3 && IsWideSpace(s[0], s[1], s[2]) then 3
    else 0
  }

  /** U+1680, U+2000 to U+200A, U+2028, U+2029, U+202F, U+205F and U+3000. */
  predicate IsWideSpace(a: byte, b: byte, c: byte) {
    || (a == 0xE1 && b == 0x9A && c == 0x80)
    || (a == 0xE2 && b == 0x80 && (0x80 <= c <= 0x8A || c == 0xA8 || c == 0xA9 || c == 0xAF))
    || (a == 0xE2 && b == 0x81 && c == 0x9F)
    || (a == 0xE3 && b == 0x80 && c == 0x80)
  }

  /** The length of the white space character the bytes end with, or 0. */
  function SpaceBefore(s: seq<byte>): (n: nat)
    ensures n <= |s|
  {
    var n := |s|;
    if n >= 1 && SpaceAt(s[n - 1..]) == 1 then 1
    else if n >= 2 && SpaceAt(s[n - 2..]) == 2 then 2
    else if n >= 3 && SpaceAt(s[n - 3..]) == 3 then 3
    else 0
  }

  function RunLength(s: seq<byte>): (n: nat)
    ensures n <= |s|
    ensures s != [] && SpaceAt(s) == 0 ==> n > 0
  {
    if s == [] || SpaceAt(s) > 0 then 0 else 1 + RunLength(s[1..])
  }

  /** strings.Fields on the bytes of a string. */
  function FieldsOf(s: seq<byte>): seq<seq<byte>>
    decreases |s|
  {
    if s == [] then []
    else if SpaceAt(s) > 0 then FieldsOf(s[SpaceAt(s)..])
    else [s[..RunLength(s)]] + FieldsOf(s[RunLength(s)..])
  }

  function TrimFront(s: seq<byte>): seq<byte>
    decreases |s|
  {
    if SpaceAt(s) > 0 then TrimFront(s[SpaceAt(s)..]) else s
  }

  function TrimBack(s: seq<byte>): seq<byte>
    decreases |s|
  {
    if SpaceBefore(s) > 0 then TrimBack(s[..|s| - SpaceBefore(s)]) else s
  }

  /** No white space character starts anywhere in the bytes. */
  predicate SpaceFree(s: seq<byte>) {
    forall k :: 0 <= k < |s| ==> SpaceAt(s[k..]) == 0
  }

  lemma {:induction false} RunOfField(a: seq<byte>, b: seq<byte>)
    requires SpaceFree(a) && (b == [] || IsSpaceByte(b[0]))
    ensures RunLength(a + b) == |a|
  {
    if a == [] {
      assert a + b == b;
    } else {
      assert a[0..] == a && SpaceAt(a) == 0;
      assert SpaceAt(a + b) == 0;
      forall k | 0 <= k < |a[1..]| ensures SpaceAt(a[1..][k..]) == 0 {
        assert a[1..][k..] == a[k + 1..];
      }
      RunOfField(a[1..], b);
      assert (a + b)[1..] == a[1..] + b;
    }
  }

  lemma {:induction false} FieldsReadBack(fields: seq<seq<byte>>, seps: seq<byte>)
    requires |fields| == |seps|
    requires forall i :: 0 <= i < |fields| ==> fields[i] != [] && SpaceFree(fields[i])
    requires forall i :: 0 <= i < |seps| ==> IsSpaceByte(seps[i])
    ensures FieldsOf(Separated(fields, seps)) == fields
  {
    if fields != [] {
      hide SpaceFree, RunLength;
      var a, rest := fields[0], Separated(fields[1..], seps[1..]);
      FieldsReadBack(fields[1..], seps[1..]);
      var b := [seps[0]] + rest;
      assert Separated(fields, seps) == a + b && b[1..] == rest;
      FirstField(a, b);
      assert SpaceAt(b) == 1;
    }
  }

  lemma FirstField(a: seq<byte>, b: seq<byte>)
    requires a != [] && SpaceFree(a) && b != [] && IsSpaceByte(b[0])
    ensures FieldsOf(a + b) == [a] + FieldsOf(b)
  {
    RunOfField(a, b);
    assert (a + b)[..|a|] == a && (a + b)[|a|..] == b;
    assert SpaceAt(a + b) == 0;
  }

  /* ---- the split ---- */

  /** Field k of the line at index k, index 0 unused; None for a file without a whole "(comm) ". */
  function SplitProcStat(content: seq<byte>): (r: Option<seq<seq<byte>>>)
    ensures r.Some? ==> |r.value| >= 3 && r.value[0] == []
    ensures r.Some? <==> var o, c := IndexOf(content, OPEN), LastIndexOf(content, CLOSE); o <= c && c + 2 <= |content|
  {
    var nameStart := IndexOf(content, OPEN);
    var nameEnd := LastIndexOf(content, CLOSE);
    if nameStart == |content| || nameEnd < nameStart || nameEnd + 2 > |content| then None
    else Some(FieldsAround(content, nameStart, nameEnd))
  }

  /** The fields before, between and after the two parentheses. */
  function FieldsAround(content: seq<byte>, nameStart: nat, nameEnd: nat): seq<seq<byte>>
    requires nameStart < nameEnd && nameEnd + 2 <= |content|
  {
    var restFields := FieldsOf(content[nameEnd + 2..]);
    var name := content[nameStart + 1..nameEnd];
    var pid := TrimBack(TrimFront(content[..nameStart]));
    [[], pid, name] + restFields
  }

  /** Fields, each followed by one white space byte. */
  function Separated(fields: seq<seq<byte>>, seps: seq<byte>): seq<byte>
    requires |fields| == |seps|
  {
    if fields == [] then [] else fields[0] + [seps[0]] + Separated(fields[1..], seps[1..])
  }

  /** A line as the kernel writes it; each field after comm is followed by a blank or the newline. */
  function StatLine(pid: seq<byte>, comm: seq<byte>, fields: seq<seq<byte>>, seps: seq<byte>): seq<byte>
    requires |fields| == |seps|
  {
    pid + [SPACE, OPEN] + comm + [CLOSE, SPACE] + Separated(fields, seps)
  }

  lemma {:induction false} FreeOfSeparated(fields: seq<seq<byte>>, seps: seq<byte>, x: byte)
    requires |fields| == |seps| && AllFree(fields, x) && x !in seps
    ensures x !in Separated(fields, seps)
  {
    if fields != [] {
      FreeOfSeparated(fields[1..], seps[1..], x);
    }
  }

  lemma TrimPid(pid: seq<byte>)
    requires pid != [] && SpaceFree(pid)
    ensures TrimBack(TrimFront(pid + [SPACE])) == pid
  {
    var s := pid + [SPACE];
    assert pid[0..] == pid && SpaceAt(pid) == 0 && SpaceAt(s) == 0;
    assert s[|s| - 1..] == [SPACE] && SpaceBefore(s) == 1 && s[..|s| - 1] == pid;
    assert SpaceBefore(pid) == 0;
  }

  lemma Slices(pid: seq<byte>, comm: seq<byte>, rest: seq<byte>)
    requires OPEN !in pid && CLOSE !in rest
    ensures var content := pid + [SPACE, OPEN] + comm + [CLOSE, SPACE] + rest;
            var o, c := |pid| + 1, |pid| + 2 + |comm|;
            && IndexOf(content, OPEN) == o && LastIndexOf(content, CLOSE) == c && c + 2 <= |content|
            && content[..o] == pid + [SPACE] && content[o + 1..c] == comm && content[c + 2..] == rest
  {
    hide IndexOf, LastIndexOf;
    var content := pid + [SPACE, OPEN] + comm + [CLOSE, SPACE] + rest;
    var front, back := pid + [SPACE], [SPACE] + rest;
    IndexOfConcat(front, OPEN, comm + [CLOSE, SPACE] + rest);
    assert content == front + [OPEN] + (comm + [CLOSE, SPACE] + rest);
    LastIndexOfConcat(front + [OPEN] + comm, CLOSE, back);
    assert content == front + [OPEN] + comm + [CLOSE] + back;
  }

  /** Whatever comm contains, every field of the line ends up at its own index. */
  lemma FieldsAtTheirIndex(pid: seq<byte>, comm: seq<byte>, fields: seq<seq<byte>>, seps: seq<byte>)
    requires pid != [] && SpaceFree(pid) && OPEN !in pid
    requires |fields| == |seps| && AllFree(fields, CLOSE)
    requires forall i :: 0 <= i < |fields| ==> fields[i] != [] && SpaceFree(fields[i])
    requires forall i :: 0 <= i < |seps| ==> IsSpaceByte(seps[i])
    ensures SplitProcStat(StatLine(pid, comm, fields, seps)) == Some([[], pid, comm] + fields)
  {
    hide FieldsOf, TrimBack, TrimFront, Separated, SpaceFree;
    var content := StatLine(pid, comm, fields, seps);
    FreeOfSeparated(fields, seps, CLOSE);
    Slices(pid, comm, Separated(fields, seps));
    assert SplitProcStat(content) == Some(FieldsAround(content, |pid| + 1, |pid| + 2 + |comm|));
    FieldsReadBack(fields, seps);
    TrimPid(pid);
  }
}
