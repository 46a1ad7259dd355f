/** Protocol counters from the output of `netstat -s` on AIX. */
module NetstatAix {
  import opened Text
  import opened ProtocolSections

  /* ---- counter names ---- */

  /** Strips one parenthetical, from the first '(' to the last ')'. */
  function NormaliseDesc(s: string): string {
    var start, end := IndexOf(s, '('), LastIndexOf(s, ')');
    if start == |s| || end < start then s
    else Join(Fields(s[..start] + s[end + 1..]), " ")
  }

  function TCPKey(depth: nat, desc: string): (key: string)
    ensures key != "" ==> IsUpper(key[0])
  {
    if depth == 1 && desc == "packets sent" then "OutSegs"
    else if depth == 1 && desc == "packets received" then "InSegs"
    else if Contains(desc, "retransmitted") then "RetransSegs"
    else if desc == "connection requests" then "ActiveOpens"
    else if desc == "connection accepts" then "PassiveOpens"
    else if desc == "embryonic connections dropped" then "AttemptFails"
    else if HasPrefix(desc, "discarded for bad checksums") then "InCsumErrors"
    else if HasPrefix(desc, "discarded for bad header") || HasPrefix(desc, "discarded because packet too short") then "InErrs"
    else ""
  }

  function UDPKey(desc: string): (key: string)
    ensures key != "" ==> IsUpper(key[0])
  {
    if desc == "delivered" then "InDatagrams"
    else if Contains(desc, "dropped due to no socket") then "NoPorts"
    else if desc == "bad checksums" then "InCsumErrors"
    else if desc == "socket buffer overflows" then "RcvbufErrors"
    else if desc == "datagrams output" then "OutDatagrams"
    else if desc == "incomplete headers" || desc == "bad data length fields" then "InErrors"
    else ""
  }

  /** The entries the IPv4 and IPv6 tables share, tried in the same order behind their header errors. */
  function CommonIPKey(depth: nat, desc: string): (key: string)
    ensures key != "" ==> IsUpper(key[0])
  {
    if desc == "packets for this host" then "InDelivers"
    else if depth == 1 && desc == "packets forwarded" then "ForwDatagrams"
    else if desc == "packets sent from this host" then "OutRequests"
    else if desc == "packets reassembled ok" then "ReasmOKs"
    else if HasPrefix(desc, "fragments dropped after timeout") then "ReasmFails"
    else if desc == "fragments received" then "ReasmReqds"
    else if HasPrefix(desc, "fragments dropped") then "InDiscards"
    else if desc == "fragments created" then "FragCreates"
    else if desc == "output packets discarded due to no route" then "OutNoRoutes"
    else if HasPrefix(desc, "output packets dropped due to no bufs") then "OutDiscards"
    else ""
  }

  function IPKey(depth: nat, desc: string): (key: string)
    ensures key != "" ==> IsUpper(key[0])
  {
    if desc == "total packets received" then "InReceives"
    else if desc in ["bad header checksums", "with size smaller than minimum", "with data size < data length",
                     "with header length < data size", "with data length < header length", "with bad options",
                     "with incorrect version number"] then "InHdrErrors"
    else if Contains(desc, "unknown/unsupported protocol") then "InUnknownProtos"
    else CommonIPKey(depth, desc)
  }

  function IPv6Key(depth: nat, desc: string): (key: string)
    ensures key != "" ==> IsUpper(key[0])
  {
    if desc == "total packets received" then "InReceives"
    else if desc in ["with size smaller than minimum", "with data size < data length", "with incorrect version number",
                     "with illegal source"] then "InHdrErrors"
    else if Contains(desc, "unknown/unsupported protocol") then "InUnknownProtos"
    else if desc == "input packets without enough memory" then "InDiscards"
    else if desc == "output packets without enough memory" then "OutDiscards"
    else CommonIPKey(depth, desc)
  }

  function ProtoKey(proto: string, depth: nat, desc: string): (key: string)
    ensures key != "" ==> IsUpper(key[0])
  {
    match proto
    case "tcp" => TCPKey(depth, desc)
    case "udp" => UDPKey(desc)
    case "ip" => IPKey(depth, desc)
    case "ipv6" => IPv6Key(depth, desc)
    case _ => ""
  }

  /* ---- camelCase ---- */

  predicate IsUpper(c: char) { 'A' <= c <= 'Z' }
  predicate IsLower(c: char) { 'a' <= c <= 'z' }
  predicate IsAlnum(c: char) { IsUpper(c) || IsLower(c) || IsDigit(c) }

  function LowerChar(c: char): char {
    if IsUpper(c) then c - 'A' + 'a' else c
  }

  function UpperChar(c: char): char {
    if IsLower(c) then c - 'a' + 'A' else c
  }

  function ToLower(s: string): (r: string)
    ensures |r| == |s| && forall i :: 0 <= i < |s| ==> r[i] == LowerChar(s[i])
  {
    seq(|s|, i requires 0 <= i < |s| => LowerChar(s[i]))
  }

  function Clean(c: char): char {
    if IsAlnum(c) then c else ' '
  }

  function Cleaned(s: string): (r: string)
    ensures |r| == |s| && forall i :: 0 <= i < |s| ==> r[i] == Clean(s[i])
  {
    seq(|s|, i requires 0 <= i < |s| => Clean(s[i]))
  }

  function Capitalised(w: string): string {
    var l := ToLower(w);
    if l == "" then "" else [UpperChar(l[0])] + l[1..]
  }

  /** All words after the first start with a capital. */
  function Camel(words: seq<string>): string {
    if words == [] then ""
    else
      var n := |words| - 1;
      Camel(words[..n]) + if n == 0 then ToLower(words[0]) else Capitalised(words[n])
  }

  function BeforeParen(desc: string): string {
    var idx := IndexOf(desc, '(');
    if 0 < idx < |desc| then TrimSpace(desc[..idx]) else desc
  }

  function CamelCase(desc: string): string {
    Camel(Fields(Cleaned(BeforeParen(desc))))
  }

  method DescToCamelCase(desc: string) returns (key: string)
    ensures key == CamelCase(desc)
  {
    var d := desc;
    var idx := IndexOf(desc, '(');
    if 0 < idx < |desc| {
      d := TrimSpace(desc[..idx]);
    }
    var cleaned := CleanChars(d);
    key := JoinWords(Fields(cleaned));
  }

  method CleanChars(d: string) returns (r: string)
    ensures r == Cleaned(d)
  {
    var cleaned := new char[|d|](_ => ' ');
    for i := 0 to |d|
      invariant forall k :: 0 <= k < i ==> cleaned[k] == Clean(d[k])
    {
      var c := d[i];
      if ('a' <= c <= 'z') || ('A' <= c <= 'Z') || ('0' <= c <= '9') || c == ' ' {
        cleaned[i] := c;
      } else {
        cleaned[i] := ' ';
      }
    }
    r := cleaned[..];
  }

  lemma CamelStep(words: seq<string>, i: nat)
    requires i < |words|
    ensures Camel(words[..i + 1]) == Camel(words[..i]) + if i == 0 then ToLower(words[0]) else Capitalised(words[i])
  {
    hide ToLower, Capitalised;
    var more := words[..i + 1];
    assert more[..i] == words[..i] && more[i] == words[i] && more[0] == words[0];
  }

  lemma NoWords(words: seq<string>)
    ensures Camel(words[..0]) == ""
  {
  }

  method JoinWords(words: seq<string>) returns (key: string)
    ensures key == Camel(words)
  {
    hide Camel, ToLower, Capitalised;
    key := "";
    assert Camel(words[..0]) == "" by {
      NoWords(words);
    }
    for i := 0 to |words|
      invariant key == Camel(words[..i])
    {
      CamelStep(words, i);
      if i == 0 {
        key := key + ToLower(words[i]);
      } else {
        key := key + Capitalised(words[i]);
      }
    }
    assert words[..|words|] == words;
  }

  /* ---- the name of a description, word by word ---- */

  predicate IsAlnumWord(w: string) {
    w != "" && forall i :: 0 <= i < |w| ==> IsAlnum(w[i])
  }

  /** Words with single spaces between them. */
  function Sentence(words: seq<string>): string
    requires words != []
  {
    Terminated(words[..|words| - 1], ' ') + words[|words| - 1]
  }

  lemma {:induction false} PlainSentence(words: seq<string>)
    requires forall i :: 0 <= i < |words| ==> IsAlnumWord(words[i])
    ensures forall i :: 0 <= i < |Terminated(words, ' ')| ==> IsAlnum(Terminated(words, ' ')[i]) || Terminated(words, ' ')[i] == ' '
  {
    if words != [] {
      PlainSentence(words[1..]);
      assert IsAlnumWord(words[0]);
    }
  }

  lemma CamelCaseOfSentence(words: seq<string>)
    requires words != [] && forall i :: 0 <= i < |words| ==> IsAlnumWord(words[i])
    ensures CamelCase(Sentence(words)) == Camel(words)
  {
    hide *;
    SentenceFields(words);
    SentenceIsPlain(words);
    PlainStays(Sentence(words));
    CamelCaseOfPlain(Sentence(words));
  }

  lemma CamelCaseOfPlain(s: string)
    requires BeforeParen(s) == s && Cleaned(s) == s
    ensures CamelCase(s) == Camel(FieldsBy(s, IsSpace))
  {
    hide Camel, FieldsBy, BeforeParen, Cleaned;
  }

  lemma SentenceFields(words: seq<string>)
    requires words != [] && forall i :: 0 <= i < |words| ==> IsAlnumWord(words[i])
    ensures FieldsBy(Sentence(words), IsSpace) == words
  {
    hide FieldsBy, Terminated, IsAlnumWord, Solid;
    var n := |words| - 1;
    forall i | 0 <= i < |words| ensures words[i] != "" && Solid(words[i], IsSpace) {
      PlainWord(words[i]);
    }
    FieldsOfJoined(words[..n], words[n], ' ', IsSpace);
    assert words[..n] + [words[n]] == words;
  }

  lemma SentenceIsPlain(words: seq<string>)
    requires words != [] && forall i :: 0 <= i < |words| ==> IsAlnumWord(words[i])
    ensures forall i :: 0 <= i < |Sentence(words)| ==> IsAlnum(Sentence(words)[i]) || Sentence(words)[i] == ' '
  {
    hide Terminated, IsAlnumWord, IsAlnum;
    PlainSentence(words[..|words| - 1]);
    PlainWord(words[|words| - 1]);
  }

  lemma PlainWord(w: string)
    requires IsAlnumWord(w)
    ensures w != "" && Solid(w, IsSpace) && forall i :: 0 <= i < |w| ==> IsAlnum(w[i])
  {
  }

  lemma PlainStays(s: string)
    requires forall i :: 0 <= i < |s| ==> IsAlnum(s[i]) || s[i] == ' '
    ensures BeforeParen(s) == s && Cleaned(s) == s
  {
    assert IndexOf(s, '(') == |s|;
  }

  /** A single word is written small. */
  lemma FirstWordSmall(w: string)
    requires IsAlnumWord(w)
    ensures |CamelCase(Sentence([w]))| == |w|
    ensures forall i :: 0 <= i < |w| ==> CamelCase(Sentence([w]))[i] == if 'A' <= w[i] <= 'Z' then w[i] - 'A' + 'a' else w[i]
  {
    hide CamelCase;
    CamelCaseOfSentence([w]);
    assert [w][..0] == [] && Camel([]) == "";
    assert Camel([w]) == "" + ToLower(w);
  }

  lemma CapitalisedChars(w: string)
    requires IsAlnumWord(w)
    ensures |Capitalised(w)| == |w| > 0
    ensures Capitalised(w)[0] == (if 'a' <= w[0] <= 'z' then w[0] - 'a' + 'A' else w[0])
    ensures forall i :: 0 < i < |w| ==> Capitalised(w)[i] == if 'A' <= w[i] <= 'Z' then w[i] - 'A' + 'a' else w[i]
  {
  }

  /** Every further word is added behind the name so far, its first letter capital and the others small. */
  lemma NextWordCapitalised(words: seq<string>, w: string)
    requires words != [] && IsAlnumWord(w) && forall i :: 0 <= i < |words| ==> IsAlnumWord(words[i])
    ensures var before, after := CamelCase(Sentence(words)), CamelCase(Sentence(words + [w]));
            && |after| == |before| + |w| && after[..|before|] == before
            && after[|before|] == (if 'a' <= w[0] <= 'z' then w[0] - 'a' + 'A' else w[0])
            && forall i :: 0 < i < |w| ==> after[|before| + i] == if 'A' <= w[i] <= 'Z' then w[i] - 'A' + 'a' else w[i]
  {
    hide CamelCase, Camel, Capitalised, ToLower, Sentence, IsAlnumWord;
    CapitalisedChars(w);
    var all := words + [w];
    CamelCaseOfSentence(words);
    CamelCaseOfSentence(all);
    CamelStep(all, |words|);
    assert all[..|words| + 1] == all && all[..|words|] == words;
    assert Camel(all) == Camel(words) + Capitalised(w);
  }

  /** What follows an opening parenthesis is no part of the name. */
  lemma NameEndsAtParenthesis(front: string, rest: string)
    requires front != "" && '(' !in front
    ensures CamelCase(front + "(" + rest) == Camel(Fields(Cleaned(TrimSpace(front))))
  {
    hide Fields, TrimSpace, Camel, Cleaned;
    IndexOfConcat(front, '(', rest);
    assert (front + "(" + rest)[..|front|] == front;
  }

  /* ---- the two styles of key never collide ---- */

  predicate AllAlnumWords(words: seq<string>) {
    forall i :: 0 <= i < |words| ==> words[i] != "" && IsAlnum(words[i][0])
  }

  lemma {:induction false} CleanedWords(s: string)
    requires forall i :: 0 <= i < |s| ==> IsAlnum(s[i]) || s[i] == ' '
    ensures AllAlnumWords(Fields(s))
    decreases |s|
  {
    if s != "" {
      if IsSpace(s[0]) {
        CleanedWords(s[1..]);
      } else {
        var n := SolidRun(s, IsSpace);
        CleanedWords(s[n..]);
        assert n > 0 && s[..n][0] == s[0];
      }
    }
  }

  lemma {:induction false} CamelStart(words: seq<string>)
    requires words != [] && words[0] != ""
    ensures Camel(words) != "" && Camel(words)[0] == LowerChar(words[0][0])
  {
    hide Capitalised;
    var n := |words| - 1;
    if n == 0 {
      assert Camel(words) == Camel(words[..0]) + ToLower(words[0]) && Camel(words[..0]) == "";
    } else {
      assert words[..n][0] == words[0];
      CamelStart(words[..n]);
      assert Camel(words) == Camel(words[..n]) + Capitalised(words[n]);
    }
  }

  lemma CamelCaseStartsLower(desc: string)
    ensures CamelCase(desc) != "" ==> IsLower(CamelCase(desc)[0]) || IsDigit(CamelCase(desc)[0])
  {
    var s := Cleaned(BeforeParen(desc));
    CleanedWords(s);
    var words := Fields(s);
    if words != [] {
      CamelStart(words);
      assert IsAlnum(words[0][0]);
    }
  }

  /** A MIB-II name is never the camelCase name of any description, so the two styles share a map safely. */
  lemma StylesNeverCollide(proto: string, depth: nat, desc: string, other: string)
    requires ProtoKey(proto, depth, desc) != ""
    ensures ProtoKey(proto, depth, desc) != CamelCase(other)
  {
    CamelCaseStartsLower(other);
  }

  /* ---- lines ---- */

  function ReadHeader(line: string): Option<string> {
    if line != "" && line[0] != '\t' then Some(TrimSuffix(TrimSpace(line), ":")) else None
  }

  function Tabs(line: string): (n: nat)
    ensures n <= |line|
  {
    if line != "" && line[0] == '\t' then 1 + Tabs(line[1..]) else 0
  }

  function KeyOf(proto: string, depth: nat, desc: string): string {
    var k := ProtoKey(proto, depth, desc);
    if k == "" then CamelCase(desc) else k
  }

  datatype Amount = Amount(value: int, desc: string)

  /** "<number> <description>", with the description normalised. */
  function AmountOf(rest: string): Option<Amount> {
    var spaceIdx := IndexOf(rest, ' ');
    if rest == "" || spaceIdx == 0 || spaceIdx == |rest| then None
    else
      var val := ParseInt(rest[..spaceIdx], TWO63);
      if val.None? then None else Some(Amount(val.value, NormaliseDesc(TrimSpace(rest[spaceIdx + 1..]))))
  }

  /** What the text behind the tabs counts: one value under one key, or nothing. */
  function CountOf(proto: string, depth: nat, rest: string): Option<Count> {
    var a := AmountOf(rest);
    if depth == 0 || a.None? then None
    else
      var key := KeyOf(proto, depth, a.value.desc);
      if key == "" then None else Some(Count(key, a.value.value))
  }

  function ReadCount(proto: string, line: string): Option<Count> {
    CountOf(proto, Tabs(line), line[Tabs(line)..])
  }

  function Indent(depth: nat): string {
    seq(depth, _ => '\t')
  }

  lemma {:induction false} TabsOfIndent(depth: nat, rest: string)
    requires rest != "" && rest[0] != '\t'
    ensures Tabs(Indent(depth) + rest) == depth
  {
    if depth == 0 {
      assert Indent(0) + rest == rest;
    } else {
      TabsOfIndent(depth - 1, rest);
      assert (Indent(depth) + rest)[1..] == Indent(depth - 1) + rest;
    }
  }

  /** A counter line is counted once, under the key of its own depth and normalised description, if that has one. */
  lemma CountLineReadBack(proto: string, depth: nat, n: nat, desc: string)
    requires depth > 0 && n < TWO63
    ensures var words := NormaliseDesc(TrimSpace(desc));
            var key := if ProtoKey(proto, depth, words) != "" then ProtoKey(proto, depth, words) else CamelCase(words);
            ReadCount(proto, Indent(depth) + (Decimal(n) + " " + desc)) == if key == "" then None else Some(Count(key, n))
  {
    hide ProtoKey, CamelCase, TrimSpace, AmountOf, Tabs, Decimal, NormaliseDesc;
    var rest := Decimal(n) + " " + desc;
    assert IsDigit(rest[0]);
    TabsOfIndent(depth, rest);
    assert (Indent(depth) + rest)[depth..] == rest;
    AmountReadBack(n, desc);
  }

  lemma AmountReadBack(n: nat, desc: string)
    requires n < TWO63
    ensures AmountOf(Decimal(n) + " " + desc) == Some(Amount(n, NormaliseDesc(TrimSpace(desc))))
  {
    hide TrimSpace, Decimal, ParseInt, NormaliseDesc;
    var digits := Decimal(n);
    var rest := digits + " " + desc;
    IndexOfConcat(digits, ' ', desc);
    assert rest[..|digits|] == digits && rest[|digits| + 1..] == desc;
    ParseIntOfDecimal(n, TWO63);
  }

  /** A description without a parenthetical stays as it is. */
  lemma NoSubCount(desc: string)
    requires '(' !in desc
    ensures NormaliseDesc(desc) == desc
  {
    assert IndexOf(desc, '(') == |desc|;
  }

  predicate AllWords(words: seq<string>) {
    forall i :: 0 <= i < |words| ==> IsWord(words[i])
  }

  /** Words, each led by a space. */
  function Led(words: seq<string>): string {
    if words == [] then "" else " " + words[0] + Led(words[1..])
  }

  lemma LedParts(words: seq<string>)
    requires words != []
    ensures Led(words) == [' '] + (words[0] + Led(words[1..]))
    ensures Led(words[1..]) == "" || Led(words[1..])[0] == ' '
  {
  }

  lemma {:induction false} FieldsOfLed(words: seq<string>)
    requires AllWords(words)
    ensures Fields(Led(words)) == words
  {
    if words != [] {
      hide FieldsBy, Solid, Led;
      FieldsOfLed(words[1..]);
      LedParts(words);
      assert IsWord(words[0]);
      FieldsHead(words[0], Led(words[1..]), IsSpace);
      FieldsBehindSpace(' ', words[0] + Led(words[1..]), IsSpace);
    }
  }

  lemma {:induction false} LedFree(words: seq<string>, c: char)
    requires AllFree(words, c) && c != ' '
    ensures c !in Led(words)
  {
    if words != [] {
      LedFree(words[1..], c);
    }
  }

  lemma {:induction false} TerminatedFree(words: seq<string>, c: char)
    requires AllFree(words, c) && c != ' '
    ensures c !in Terminated(words, ' ')
  {
    if words != [] {
      TerminatedFree(words[1..], c);
    }
  }

  /** A description with a sub-count in parentheses, which may itself contain any characters. */
  function WithSubCount(before: seq<string>, inner: string, after: seq<string>): string {
    Terminated(before, ' ') + ['('] + inner + [')'] + Led(after)
  }

  /** The sub-count is dropped, and the words around it are joined by single spaces. */
  lemma SubCountDropped(before: seq<string>, inner: string, after: seq<string>)
    requires AllWords(before) && AllWords(after) && AllFree(before, '(') && AllFree(after, ')')
    ensures NormaliseDesc(WithSubCount(before, inner, after)) == Join(before + after, " ")
  {
    hide FieldsBy, Join, IsWord, Terminated, Led;
    var s := WithSubCount(before, inner, after);
    var front, back := Terminated(before, ' '), Led(after);
    TerminatedFree(before, '(');
    LedFree(after, ')');
    IndexOfConcat(front, '(', inner + [')'] + back);
    assert s == front + ['('] + (inner + [')'] + back);
    LastIndexOfConcat(front + ['('] + inner, ')', back);
    var start, end := |front|, |front| + 1 + |inner|;
    assert s[..start] == front && s[end + 1..] == back;
    WordsAreSolid(before);
    FieldsOfTerminated(before, ' ', back, IsSpace);
    FieldsOfLed(after);
  }

  lemma WordsAreSolid(words: seq<string>)
    requires AllWords(words)
    ensures forall i :: 0 <= i < |words| ==> words[i] != "" && Solid(words[i], IsSpace)
  {
    forall i | 0 <= i < |words| ensures words[i] != "" && Solid(words[i], IsSpace) {
      assert IsWord(words[i]);
    }
  }

  /** The segment totals come from one top-level line each; the same words further in are no totals. */
  lemma TotalsOnlyAtTopLevel(depth: nat, desc: string)
    ensures TCPKey(depth, desc) == "OutSegs" <==> depth == 1 && desc == "packets sent"
    ensures TCPKey(depth, desc) == "InSegs" <==> depth == 1 && desc == "packets received"
  {
    hide Contains, HasPrefix;
  }

  /** A line that starts in the first column opens the section of its name. */
  lemma HeaderReadBack(name: string)
    requires name != "" && !IsSpace(name[0])
    ensures ReadHeader(name + ":") == Some(name)
  {
    hide TrimSpace;
    var line := name + ":";
    assert line[|line| - 1] == ':' && line[0] == name[0];
    TrimSpaceOfPlain(line);
    assert line[|line| - 1..] == ":" && line[..|line| - 1] == name;
  }

  /** A header and one counter line: one section of that name, with that count under the key of the line. */
  lemma SectionReadBack(proto: string, depth: nat, n: nat, desc: string)
    requires proto != "" && !IsSpace(proto[0]) && depth > 0 && n < TWO63
    requires KeyOf(proto, depth, NormaliseDesc(TrimSpace(desc))) != ""
    ensures var key := KeyOf(proto, depth, NormaliseDesc(TrimSpace(desc)));
            Parse(NETSTAT, [], [proto + ":", Indent(depth) + (Decimal(n) + " " + desc)]) == [ProtoStats(proto, map[key := n])]
  {
    var key := KeyOf(proto, depth, NormaliseDesc(TrimSpace(desc)));
    var a, b := proto + ":", Indent(depth) + (Decimal(n) + " " + desc);
    HeaderReadBack(proto);
    CountLineReadBack(proto, depth, n, desc);
    IndentedIsNoHeader(depth, Decimal(n) + " " + desc);
    hide ReadHeader, ReadCount, KeyOf, NormaliseDesc, TrimSpace, Decimal, Indent;
    TwoLines(a, b, proto, Count(key, n));
  }

  /** A section without counters is left out. */
  lemma EmptySectionLeftOut(proto: string)
    requires proto != "" && !IsSpace(proto[0])
    ensures Parse(NETSTAT, [], [proto + ":"]) == []
  {
    HeaderReadBack(proto);
    hide ReadHeader, ReadCount;
    var a := proto + ":";
    assert [a][..0] == [];
    assert Fold(NETSTAT, [], [a]) == State([], proto, map[]);
  }

  lemma IndentedIsNoHeader(depth: nat, rest: string)
    requires depth > 0
    ensures ReadHeader(Indent(depth) + rest) == None
  {
    assert (Indent(depth) + rest)[0] == '\t';
  }

  lemma TwoLines(a: string, b: string, proto: string, count: Count)
    requires ReadHeader(a) == Some(proto) && proto != "" && ReadHeader(b) == None && ReadCount(proto, b) == Some(count)
    requires 0 <= count.value < TWO63
    ensures Parse(NETSTAT, [], [a, b]) == [ProtoStats(proto, map[count.key := count.value])]
  {
    hide ReadHeader, ReadCount;
    assert [a, b][..1] == [a] && [a][..0] == [];
    assert Fold(NETSTAT, [], [a]) == State([], proto, map[]);
    var current := map[count.key := count.value];
    assert Fold(NETSTAT, [], [a, b]) == State([], proto, current);
    assert count.key in current;
  }

  /* ---- the parser ---- */

  const NETSTAT := Reader(ReadHeader, ReadCount)

  method ParseNetstatS(output: string, protocols: seq<string>) returns (stats: seq<ProtoStats>)
    ensures stats == Parse(NETSTAT, protocols, SplitOn(output, '\n'))
  {
    stats := ParseSections(NETSTAT, SplitOn(output, '\n'), protocols);
  }

  /** The part of the loop body that takes an indented line apart. */
  method ReadCountLine(proto: string, line: string) returns (c: Option<Count>)
    ensures c == NETSTAT.count(proto, line)
  {
    var depth, rest := 0, line;
    while rest != "" && rest[0] == '\t'
      invariant depth <= |line| && rest == line[depth..]
      invariant Tabs(line) == depth + Tabs(rest)
      decreases |rest|
    {
      depth := depth + 1;
      rest := rest[1..];
    }
    c := CountRest(proto, depth, rest);
  }

  method CountRest(proto: string, depth: nat, rest: string) returns (c: Option<Count>)
    ensures c == CountOf(proto, depth, rest)
  {
    if depth == 0 {
      return None;
    }
    var a := ReadAmount(rest);
    if a.None? {
      return None;
    }
    var key := FindKey(proto, depth, a.value.desc);
    if key == "" {
      return None;
    }
    return Some(Count(key, a.value.value));
  }

  method ReadAmount(rest: string) returns (a: Option<Amount>)
    ensures a == AmountOf(rest)
  {
    if rest == "" {
      return None;
    }
    var spaceIdx := IndexOf(rest, ' ');
    if spaceIdx == 0 || spaceIdx == |rest| {
      return None;
    }
    var val := ParseInt(rest[..spaceIdx], TWO63);
    if val.None? {
      return None;
    }
    return Some(Amount(val.value, NormaliseDesc(TrimSpace(rest[spaceIdx + 1..]))));
  }

  method FindKey(proto: string, depth: nat, desc: string) returns (key: string)
    ensures key == KeyOf(proto, depth, desc)
  {
    key := ProtoKey(proto, depth, desc);
    if key == "" {
      key := DescToCamelCase(desc);
    }
  }
}
