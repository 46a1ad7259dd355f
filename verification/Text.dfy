/** Byte and text helpers shared by the parsers: splitting, whitespace fields, decimal numbers. */
module Text {

  datatype Option<+T> = None | Some(value: T)

  newtype byte = x: int | 0 <= x < 0x100

  /* ---- searching ---- */

  /** First position of `x`, or the length when there is none. */
  function IndexOf<T(==)>(s: seq<T>, x: T): (i: nat)
    ensures i <= |s|
    ensures i < |s| ==> s[i] == x
    ensures forall j :: 0 <= j < i ==> s[j] != x
  {
    if s == [] || s[0] == x then 0 else 1 + IndexOf(s[1..], x)
  }

  lemma {:induction false} IndexOfConcat<T>(a: seq<T>, x: T, b: seq<T>)
    requires x !in a
    ensures IndexOf(a + [x] + b, x) == |a|
  {
    if a != [] {
      IndexOfConcat(a[1..], x, b);
      assert (a + [x] + b)[1..] == a[1..] + [x] + b;
    }
  }

  /** Last position of `x`, or -1. */
  function LastIndexOf<T(==)>(s: seq<T>, x: T): (i: int)
    ensures -1 <= i < |s|
    ensures i >= 0 ==> s[i] == x
    ensures forall j :: i < j < |s| ==> s[j] != x
  {
    if s == [] then -1
    else if s[|s| - 1] == x then |s| - 1
    else LastIndexOf(s[..|s| - 1], x)
  }

  lemma {:induction false} LastIndexOfConcat<T>(a: seq<T>, x: T, b: seq<T>)
    requires x !in b
    ensures LastIndexOf(a + [x] + b, x) == |a|
  {
    if b != [] {
      var n := |b| - 1;
      LastIndexOfConcat(a, x, b[..n]);
      assert (a + [x] + b)[..|a| + 1 + n] == a + [x] + b[..n];
    }
  }

  predicate HasPrefix<T(==)>(s: seq<T>, p: seq<T>) {
    |p| <= |s| && s[..|p|] == p
  }

  lemma PrefixAt<T>(s: seq<T>, p: seq<T>, k: nat)
    requires k < |p|
    ensures HasPrefix(s, p) ==> k < |s| && s[k] == p[k]
  {
    if HasPrefix(s, p) {
      assert s[..|p|][k] == s[k];
    }
  }

  predicate HasSuffix<T(==)>(s: seq<T>, p: seq<T>) {
    |p| <= |s| && s[|s| - |p|..] == p
  }

  function TrimSuffix<T(==)>(s: seq<T>, p: seq<T>): seq<T> {
    if HasSuffix(s, p) then s[..|s| - |p|] else s
  }

  /** First position at which `p` occurs in `s`. */
  function Find<T(==)>(s: seq<T>, p: seq<T>): (r: Option<nat>)
    ensures r.Some? ==> r.value + |p| <= |s| && s[r.value..r.value + |p|] == p
  {
    if HasPrefix(s, p) then Some(0)
    else if s == [] then None
    else
      var r := Find(s[1..], p);
      if r.Some? then assert s[1..][r.value..r.value + |p|] == s[1 + r.value..1 + r.value + |p|]; Some(1 + r.value)
      else None
  }

  lemma FindNext<T>(s: seq<T>, p: seq<T>)
    requires s != [] && !HasPrefix(s, p)
    ensures Find(s, p) == var r := Find(s[1..], p); if r.Some? then Some(1 + r.value) else None
  {
  }

  predicate Contains<T(==)>(s: seq<T>, p: seq<T>) {
    Find(s, p).Some?
  }

  lemma {:induction false} NotContained<T>(s: seq<T>, p: seq<T>)
    requires p != [] && p[0] !in s
    ensures !Contains(s, p)
  {
    if s != [] {
      NotContained(s[1..], p);
      PrefixAt(s, p, 0);
    }
  }

  lemma {:induction false} ContainsElement<T>(s: seq<T>, x: T)
    requires x in s
    ensures Contains(s, [x])
  {
    if s[0] == x {
      assert s[..1] == [x];
    } else {
      ContainsElement(s[1..], x);
    }
  }

  /* ---- splitting on a separator ---- */

  /** All pieces between separators; one piece more than there are separators. */
  function SplitOn<T(==)>(s: seq<T>, sep: T): (r: seq<seq<T>>)
    ensures r != []
  {
    var i := IndexOf(s, sep);
    if i == |s| then [s] else [s[..i]] + SplitOn(s[i + 1..], sep)
  }

  lemma SplitOnHead<T>(a: seq<T>, sep: T, b: seq<T>)
    requires sep !in a
    ensures SplitOn(a + [sep] + b, sep) == [a] + SplitOn(b, sep)
  {
    IndexOfConcat(a, sep, b);
    var s := a + [sep] + b;
    assert s[..|a|] == a && s[|a| + 1..] == b;
  }

  lemma SplitOnNone<T>(a: seq<T>, sep: T)
    requires sep !in a
    ensures SplitOn(a, sep) == [a]
  {
  }

  /** Every piece followed by the separator. */
  function Terminated<T>(parts: seq<seq<T>>, sep: T): seq<T> {
    if parts == [] then [] else parts[0] + [sep] + Terminated(parts[1..], sep)
  }

  predicate AllFree<T(==)>(parts: seq<seq<T>>, x: T) {
    forall i :: 0 <= i < |parts| ==> x !in parts[i]
  }

  lemma {:induction false} SplitOnTerminated<T>(parts: seq<seq<T>>, sep: T, rest: seq<T>)
    requires AllFree(parts, sep)
    ensures SplitOn(Terminated(parts, sep) + rest, sep) == parts + SplitOn(rest, sep)
  {
    if parts == [] {
      assert Terminated(parts, sep) + rest == rest;
    } else {
      var tail := Terminated(parts[1..], sep) + rest;
      calc {
        SplitOn(Terminated(parts, sep) + rest, sep);
        { assert Terminated(parts, sep) + rest == parts[0] + [sep] + tail; }
        SplitOn(parts[0] + [sep] + tail, sep);
        { SplitOnHead(parts[0], sep, tail); }
        [parts[0]] + SplitOn(tail, sep);
        { SplitOnTerminated(parts[1..], sep, rest); }
        [parts[0]] + (parts[1..] + SplitOn(rest, sep));
        parts + SplitOn(rest, sep);
      }
    }
  }

  /* ---- whitespace ---- */

  /** Unicode white space, as the Go text routines use it. */
  predicate IsSpace(c: char) {
    c == ' ' || '\t' <= c <= '\r' || c == '\U{85}' || c == '\U{A0}' || c == '\U{1680}'
    || '\U{2000}' <= c <= '\U{200A}' || c == '\U{2028}' || c == '\U{2029}'
    || c == '\U{202F}' || c == '\U{205F}' || c == '\U{3000}'
  }

  predicate Solid<T>(s: seq<T>, space: T -> bool) {
    forall i :: 0 <= i < |s| ==> !space(s[i])
  }

  /** Length of the leading run without white space. */
  function SolidRun<T>(s: seq<T>, space: T -> bool): (n: nat)
    ensures n <= |s|
    ensures Solid(s[..n], space)
    ensures n < |s| ==> space(s[n])
  {
    if s == [] || space(s[0]) then 0
    else
      var n := SolidRun(s[1..], space);
      assert s[..1 + n] == [s[0]] + s[1..][..n];
      1 + n
  }

  /** The maximal runs without white space. */
  function FieldsBy<T>(s: seq<T>, space: T -> bool): seq<seq<T>>
    decreases |s|
  {
    if s == [] then []
    else if space(s[0]) then FieldsBy(s[1..], space)
    else
      var n := SolidRun(s, space);
      [s[..n]] + FieldsBy(s[n..], space)
  }

  function Fields(s: string): seq<string> {
    FieldsBy(s, IsSpace)
  }

  lemma {:induction false} SolidRunConcat<T>(a: seq<T>, b: seq<T>, space: T -> bool)
    requires Solid(a, space)
    requires b == [] || space(b[0])
    ensures SolidRun(a + b, space) == |a|
  {
    if a == [] {
      assert a + b == b;
    } else {
      SolidRunConcat(a[1..], b, space);
      assert (a + b)[1..] == a[1..] + b;
    }
  }

  /** A field followed by white space (or nothing) is the first field. */
  lemma FieldsHead<T>(a: seq<T>, b: seq<T>, space: T -> bool)
    requires a != [] && Solid(a, space)
    requires b == [] || space(b[0])
    ensures FieldsBy(a + b, space) == [a] + FieldsBy(b, space)
  {
    SolidRunConcat(a, b, space);
    assert !space((a + b)[0]);
    assert (a + b)[..|a|] == a && (a + b)[|a|..] == b;
  }

  lemma FieldsBehindSpace<T>(sep: T, rest: seq<T>, space: T -> bool)
    requires space(sep)
    ensures FieldsBy([sep] + rest, space) == FieldsBy(rest, space)
  {
    assert ([sep] + rest)[1..] == rest;
  }

  /** Fields, each followed by a separator, in front of anything. */
  lemma {:induction false} FieldsOfTerminated<T>(fields: seq<seq<T>>, sep: T, rest: seq<T>, space: T -> bool)
    requires forall i :: 0 <= i < |fields| ==> fields[i] != [] && Solid(fields[i], space)
    requires space(sep)
    ensures FieldsBy(Terminated(fields, sep) + rest, space) == fields + FieldsBy(rest, space)
  {
    hide FieldsBy, Solid;
    if fields == [] {
      assert Terminated(fields, sep) + rest == rest;
    } else {
      var tail := Terminated(fields[1..], sep) + rest;
      assert Terminated(fields, sep) + rest == fields[0] + ([sep] + tail);
      FieldsOfTerminated(fields[1..], sep, rest, space);
      FieldsHead(fields[0], [sep] + tail, space);
      FieldsBehindSpace(sep, tail, space);
    }
  }

  /** Fields joined by a single separator are recovered. */
  lemma FieldsOfJoined<T>(fields: seq<seq<T>>, last: seq<T>, sep: T, space: T -> bool)
    requires forall i :: 0 <= i < |fields| ==> fields[i] != [] && Solid(fields[i], space)
    requires last != [] && Solid(last, space) && space(sep)
    ensures FieldsBy(Terminated(fields, sep) + last, space) == fields + [last]
  {
    FieldsOfTerminated(fields, sep, last, space);
    FieldsHead(last, [], space);
    assert last + [] == last;
  }

  predicate AllSpace(s: string) {
    forall i :: 0 <= i < |s| ==> IsSpace(s[i])
  }

  lemma FieldsOfNothing()
    ensures FieldsBy("", IsSpace) == []
  {
  }

  lemma {:induction false} FieldsBehindPad(pad: string, rest: string)
    requires AllSpace(pad)
    ensures Fields(pad + rest) == Fields(rest)
  {
    if pad == "" {
      assert pad + rest == rest;
    } else {
      FieldsBehindPad(pad[1..], rest);
      FieldsBehindSpace(pad[0], pad[1..] + rest, IsSpace);
      assert pad + rest == [pad[0]] + (pad[1..] + rest);
    }
  }

  /** Columns, each followed by its padding. */
  function Padded(fields: seq<string>, pads: seq<string>): string
    requires |fields| == |pads|
  {
    if fields == [] then "" else fields[0] + pads[0] + Padded(fields[1..], pads[1..])
  }

  predicate IsWord(w: string) {
    w != "" && Solid(w, IsSpace)
  }

  /** Words with white space behind each; the last may go without if nothing follows it. */
  predicate ValidColumns(fields: seq<string>, pads: seq<string>, rest: string) {
    && |fields| == |pads|
    && (forall i :: 0 <= i < |fields| ==> IsWord(fields[i]))
    && (forall i :: 0 <= i < |pads| ==> AllSpace(pads[i]))
    && (forall i :: 0 <= i < |pads| && pads[i] == "" ==> i == |pads| - 1 && rest == "")
  }

  lemma {:induction false} FieldsOfColumns(fields: seq<string>, pads: seq<string>, rest: string)
    requires ValidColumns(fields, pads, rest)
    ensures Fields(Padded(fields, pads) + rest) == fields + Fields(rest)
    decreases |fields|
  {
    if fields == [] {
      assert Padded(fields, pads) + rest == rest;
    } else {
      hide FieldsBy, Solid;
      var tail := Padded(fields[1..], pads[1..]) + rest;
      FieldsOfColumns(fields[1..], pads[1..], rest);
      FieldsBehindPad(pads[0], tail);
      assert IsWord(fields[0]) && AllSpace(pads[0]);
      assert pads[0] + tail == "" || IsSpace((pads[0] + tail)[0]);
      FieldsHead(fields[0], pads[0] + tail, IsSpace);
      assert Padded(fields, pads) + rest == fields[0] + (pads[0] + tail);
    }
  }

  lemma {:induction false} ColumnsOnOneLine(fields: seq<string>, pads: seq<string>)
    requires |fields| == |pads| && AllFree(pads, '\n') && forall i :: 0 <= i < |fields| ==> IsWord(fields[i])
    ensures '\n' !in Padded(fields, pads)
    decreases |fields|
  {
    if fields != [] {
      assert IsWord(fields[0]) && IsSpace('\n') && '\n' !in fields[0];
      ColumnsOnOneLine(fields[1..], pads[1..]);
    }
  }

  function TrimLeft<T>(s: seq<T>, space: T -> bool): seq<T> {
    if s != [] && space(s[0]) then TrimLeft(s[1..], space) else s
  }

  function TrimRight<T>(s: seq<T>, space: T -> bool): seq<T> {
    if s != [] && space(s[|s| - 1]) then TrimRight(s[..|s| - 1], space) else s
  }

  function Trim<T>(s: seq<T>, space: T -> bool): seq<T> {
    TrimRight(TrimLeft(s, space), space)
  }

  function TrimSpace(s: string): string {
    Trim(s, IsSpace)
  }

  lemma TrimSpaceOfPlain(s: string)
    requires s != "" && !IsSpace(s[0]) && !IsSpace(s[|s| - 1])
    ensures TrimSpace(s) == s
  {
  }

  /** common.StringsHas: some target, trimmed, is the string. */
  predicate StringsHas(target: seq<string>, src: string) {
    exists i :: 0 <= i < |target| && TrimSpace(target[i]) == src
  }

  function Join(parts: seq<string>, sep: string): string {
    if parts == [] then "" else if |parts| == 1 then parts[0] else parts[0] + sep + Join(parts[1..], sep)
  }

  /** Every white space character is one blank between two others that are not. */
  predicate SingleSpaced(s: string) {
    forall i :: 0 <= i < |s| && IsSpace(s[i]) ==> s[i] == ' ' && 0 < i < |s| - 1 && !IsSpace(s[i + 1])
  }

  lemma {:induction false} FieldsAreWords(s: string)
    ensures forall i :: 0 <= i < |Fields(s)| ==> IsWord(Fields(s)[i])
    decreases |s|
  {
    if s != "" {
      if IsSpace(s[0]) {
        FieldsAreWords(s[1..]);
        assert Fields(s) == Fields(s[1..]);
      } else {
        var n := SolidRun(s, IsSpace);
        FieldsAreWords(s[n..]);
        assert IsWord(s[..n]) && Fields(s) == [s[..n]] + Fields(s[n..]);
      }
    }
  }

  lemma JoinStartsSolid(words: seq<string>)
    requires forall i :: 0 <= i < |words| ==> IsWord(words[i])
    ensures Join(words, " ") != "" ==> !IsSpace(Join(words, " ")[0])
  {
    if words != [] {
      assert IsWord(words[0]) && Join(words, " ")[0] == words[0][0];
    }
  }

  /** The first word and what follows the white space character behind it. */
  lemma SingleSpacedStep(s: string, n: nat)
    requires 0 < n < |s| && Solid(s[..n], IsSpace) && IsSpace(s[n])
    ensures SingleSpaced(s) <==> s[n] == ' ' && s[n + 1..] != "" && SingleSpaced(s[n + 1..])
  {
    var q := s[n + 1..];
    if SingleSpaced(s) {
      assert !IsSpace(s[n + 1]) && q[0] == s[n + 1];
      forall i | 0 <= i < |q| && IsSpace(q[i]) ensures q[i] == ' ' && 0 < i < |q| - 1 && !IsSpace(q[i + 1]) {
        assert IsSpace(s[n + 1 + i]);
      }
    }
  }

  lemma SameBehind(w: string, c: char, x: string, q: string)
    ensures w + " " + x == w + [c] + q <==> c == ' ' && x == q
  {
    if w + " " + x == w + [c] + q {
      assert (w + " " + x)[|w|] == ' ' && (w + [c] + q)[|w|] == c;
      assert x == (w + " " + x)[|w| + 1..] && q == (w + [c] + q)[|w| + 1..];
    }
  }

  /** Joining the fields of a string gives it back exactly when it is single-spaced. */
  lemma {:induction false} JoinOfFields(s: string)
    ensures Join(Fields(s), " ") == s <==> SingleSpaced(s)
    decreases |s|, 1
  {
    if s != "" {
      FieldsAreWords(s);
      JoinStartsSolid(Fields(s));
      if !IsSpace(s[0]) {
        var n := SolidRun(s, IsSpace);
        if n == |s| {
          assert s[..n] == s && s[n..] == "";
          assert Fields(s) == [s] + Fields("");
        } else {
          JoinOfTwoParts(s, n);
        }
      }
    }
  }

  /** A word, one white space character, and what follows it. */
  lemma FieldsOfTwoParts(s: string, n: nat)
    requires 0 < n < |s| && !IsSpace(s[0]) && n == SolidRun(s, IsSpace)
    ensures Fields(s) == [s[..n]] + Fields(s[n + 1..])
  {
    FieldsBehindSpace(s[n], s[n + 1..], IsSpace);
    assert s[n..] == [s[n]] + s[n + 1..];
  }

  lemma JoinMore(w: string, words: seq<string>)
    requires words != []
    ensures Join([w] + words, " ") == w + " " + Join(words, " ")
  {
    assert ([w] + words)[1..] == words;
  }

  lemma JoinOfTwoParts(s: string, n: nat)
    requires 0 < n < |s| && !IsSpace(s[0]) && n == SolidRun(s, IsSpace)
    ensures Join(Fields(s), " ") == s <==> SingleSpaced(s)
    decreases |s|, 0
  {
    hide *;
    FieldsOfTwoParts(s, n);
    FirstGap(s, n);
    SingleSpacedStep(s, n);
    JoinOfFields(s[n + 1..]);
    JoinOfWordAnd(s[..n], s[n], s[n + 1..]);
  }

  lemma FirstGap(s: string, n: nat)
    requires n < |s| && n == SolidRun(s, IsSpace)
    ensures Solid(s[..n], IsSpace) && IsSpace(s[n]) && s == s[..n] + [s[n]] + s[n + 1..]
  {
    hide IsSpace, Solid;
    CutAt(s, n);
  }

  lemma CutAt(s: string, n: nat)
    requires n < |s|
    ensures s == s[..n] + [s[n]] + s[n + 1..]
  {
  }

  lemma JoinOfWordAnd(w: string, c: char, q: string)
    ensures Join([w] + Fields(q), " ") == w + [c] + q <==> c == ' ' && q != "" && Join(Fields(q), " ") == q
  {
    hide Fields, Join;
    FieldsOfNothing();
    if Fields(q) == [] {
      JoinOne(w);
      assert [w] + Fields(q) == [w] && |w| < |w + [c] + q|;
    } else {
      JoinMore(w, Fields(q));
      SameBehind(w, c, Join(Fields(q), " "), q);
      NoFieldsOfNothing(q);
    }
  }

  lemma JoinOne(w: string)
    ensures Join([w], " ") == w && Join([], " ") == ""
  {
  }

  lemma NoFieldsOfNothing(q: string)
    requires Fields(q) != []
    ensures q != ""
  {
  }

  /* ---- decimal numbers ---- */

  predicate IsDigit(c: char) { '0' <= c <= '9' }

  predicate AllDigits(s: string) {
    forall i :: 0 <= i < |s| ==> IsDigit(s[i])
  }

  function Decimal(n: nat): (s: string)
    ensures s != "" && AllDigits(s)
  {
    if n < 10 then ['0' + n as char] else Decimal(n / 10) + ['0' + (n % 10) as char]
  }

  /** `%d` of a signed value. */
  function DecimalInt(n: int): string {
    if n < 0 then "-" + Decimal(-n) else Decimal(n)
  }

  function Value(s: string): nat
    requires AllDigits(s)
  {
    if s == "" then 0 else 10 * Value(s[..|s| - 1]) + (s[|s| - 1] - '0') as int
  }

  lemma {:induction false} ValueOfDecimal(n: nat)
    ensures Value(Decimal(n)) == n
  {
    if n < 10 {
      assert Decimal(n)[..0] == "";
    } else {
      ValueOfDecimal(n / 10);
      var s := Decimal(n);
      assert s[..|s| - 1] == Decimal(n / 10);
    }
  }

  lemma DecimalInjective(m: nat, n: nat)
    requires Decimal(m) == Decimal(n)
    ensures m == n
  {
    ValueOfDecimal(m);
    ValueOfDecimal(n);
  }

  const TWO31: nat := 0x8000_0000
  const TWO32: nat := 0x1_0000_0000
  const TWO63: nat := 0x8000_0000_0000_0000
  const TWO64: nat := 0x1_0000_0000_0000_0000

  /** uint64 addition. */
  function Add64(a: nat, b: nat): (s: nat)
    ensures s < TWO64
  {
    (a + b) % TWO64
  }

  lemma ModShift(n: int, q: int)
    ensures (n - q * TWO64) % TWO64 == n % TWO64
  {
  }

  /** strconv.ParseUint(s, 10, 64). */
  function ParseUint64(s: string): (r: Option<nat>)
    ensures r.Some? ==> r.value < TWO64
  {
    if s == "" || !AllDigits(s) || Value(s) >= TWO64 then None else Some(Value(s))
  }

  lemma ParseUint64OfDecimal(n: nat)
    requires n < TWO64
    ensures ParseUint64(Decimal(n)) == Some(n)
  {
    ValueOfDecimal(n);
  }

  predicate NotDigit(c: char) { !IsDigit(c) }

  /** The digits a string starts with. */
  function LeadingDigits(s: string): (d: string)
    ensures AllDigits(d) && d <= s
    ensures d == s <==> AllDigits(s)
  {
    var n := SolidRun(s, NotDigit);
    assert forall i :: 0 <= i < n ==> !NotDigit(s[..n][i]);
    s[..n]
  }

  /**
   * The number strconv.ParseUint(s, 10, 64) returns when its error is ignored: reading stops at the
   * first character that is no digit (0) or at the first prefix out of range (the largest number).
   */
  function ParseUintIgnoringError(s: string): (v: nat)
    ensures v < TWO64
    ensures ParseUint64(s).Some? ==> v == ParseUint64(s).value
  {
    var d := LeadingDigits(s);
    if Value(d) >= TWO64 then TWO64 - 1 else if d == s then Value(s) else 0
  }

  /** strconv.ParseInt(s, 10, bits) with half == 2^(bits-1). */
  function ParseInt(s: string, half: nat): (r: Option<int>)
    ensures r.Some? ==> -(half as int) <= r.value < half
  {
    var negative := s != "" && s[0] == '-';
    var digits := if s != "" && (s[0] == '-' || s[0] == '+') then s[1..] else s;
    if digits == "" || !AllDigits(digits) then None
    else
      var v := if negative then -(Value(digits) as int) else Value(digits);
      if -(half as int) <= v < half then Some(v) else None
  }

  lemma ParseIntOfDecimal(n: nat, half: nat)
    requires n < half
    ensures ParseInt(Decimal(n), half) == Some(n)
  {
    ValueOfDecimal(n);
    assert IsDigit(Decimal(n)[0]);
  }
}
