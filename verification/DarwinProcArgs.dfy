/**
 * The kern.procargs2 buffer of Darwin: argv and envp cut out of one NUL-separated block.
 * A nil slice of the source and an empty slice are both the empty sequence here.
 */
module DarwinProcArgs {
  import opened Text

  const NUL: byte := 0
  const EQUALS: byte := 61

  type Chunk = seq<byte>

  /* ---- what the two parsers compute ---- */

  /** Position of the first non-empty chunk at or after `from`, or the end. */
  function SkipEmpty(chunks: seq<Chunk>, from: nat): (i: nat)
    requires from <= |chunks|
    ensures from <= i <= |chunks|
    ensures forall k :: from <= k < i ==> chunks[k] == []
    ensures i < |chunks| ==> chunks[i] != []
    decreases |chunks| - from
  {
    if from < |chunks| && chunks[from] == [] then SkipEmpty(chunks, from + 1) else from
  }

  function Clamp(nargs: int, room: nat): (n: nat)
    ensures n <= room
  {
    if nargs > room then room else if nargs < 0 then 0 else nargs
  }

  /** An environment entry is KEY=VALUE with a non-empty KEY. */
  predicate IsEntry(c: Chunk) {
    EQUALS in c && c[0] != EQUALS
  }

  /** The entries of the chunks before the first empty one. */
  function Entries(chunks: seq<Chunk>): (r: seq<Chunk>)
    ensures forall e :: e in r ==> IsEntry(e)
  {
    if chunks == [] || chunks[0] == [] then []
    else (if IsEntry(chunks[0]) then [chunks[0]] else []) + Entries(chunks[1..])
  }

  function ArgsOf(chunks: seq<Chunk>, nargs: int): seq<Chunk>
    requires chunks != []
  {
    var i := SkipEmpty(chunks, 1);
    chunks[i..i + Clamp(nargs, |chunks| - i)]
  }

  function EnvOf(chunks: seq<Chunk>, nargs: int): seq<Chunk>
    requires chunks != []
  {
    var i := SkipEmpty(chunks, 1);
    Entries(chunks[i + Clamp(nargs, |chunks| - i)..])
  }

  function Cmdline(args: seq<byte>, nargs: int): seq<Chunk> {
    ArgsOf(SplitOn(args, NUL), nargs)
  }

  function Environ(args: seq<byte>, nargs: int): seq<Chunk> {
    EnvOf(SplitOn(args, NUL), nargs)
  }

  /* ---- the parsers ---- */

  /** Both parsers start alike: behind the padding, with the argument count clamped to what is there. */
  method FindArgs(chunks: seq<Chunk>, nargs: int) returns (i: nat, n: nat)
    requires chunks != []
    ensures i == SkipEmpty(chunks, 1) && n == Clamp(nargs, |chunks| - i)
  {
    i := 1;
    while i < |chunks| && chunks[i] == []
      invariant 1 <= i <= |chunks|
      invariant SkipEmpty(chunks, 1) == SkipEmpty(chunks, i)
    {
      i := i + 1;
    }
    var count := nargs;
    if count > |chunks| - i {
      count := |chunks| - i;
    }
    if count < 0 {
      count := 0;
    }
    n := count;
  }

  lemma OneMoreChunk(chunks: seq<Chunk>, start: nat, i: nat)
    requires start <= i < |chunks|
    ensures chunks[start..i + 1] == chunks[start..i] + [chunks[i]]
  {
  }

  method ParseCmdline(args: seq<byte>, nargs: int) returns (argSlice: seq<Chunk>)
    ensures argSlice == Cmdline(args, nargs)
  {
    var chunks := SplitOn(args, NUL);
    argSlice := [];
    if |chunks| <= 1 {
      return;
    }
    var i, n := FindArgs(chunks, nargs);
    ghost var start, count := i, n;
    while n > 0
      invariant 0 <= n <= count
      invariant i == start + count - n <= |chunks|
      invariant argSlice == chunks[start..i]
    {
      OneMoreChunk(chunks, start, i);
      argSlice := argSlice + [chunks[i]];
      i := i + 1;
      n := n - 1;
    }
  }

  method ParseEnviron(args: seq<byte>, nargs: int) returns (envSlice: seq<Chunk>)
    ensures envSlice == Environ(args, nargs)
  {
    var chunks := SplitOn(args, NUL);
    if |chunks| <= 1 {
      return [];
    }
    var i, n := FindArgs(chunks, nargs);
    i := i + n;
    if i >= |chunks| {
      return [];
    }
    envSlice := CollectEntries(chunks, i);
  }

  lemma EntryByIndex(c: Chunk)
    ensures 0 < IndexOf(c, EQUALS) < |c| <==> IsEntry(c)
  {
    var i := IndexOf(c, EQUALS);
    assert EQUALS in c <==> i < |c|;
  }

  /** An entry is a key that is not empty, the first equals sign, and a value. */
  lemma EntryExactly(c: Chunk)
    ensures IsEntry(c) <==> exists key: Chunk, value: Chunk :: c == key + [EQUALS] + value && key != [] && EQUALS !in key
  {
    if IsEntry(c) {
      var i := IndexOf(c, EQUALS);
      assert c == c[..i] + [EQUALS] + c[i + 1..] && EQUALS !in c[..i];
    }
    if key: Chunk, value: Chunk :| c == key + [EQUALS] + value && key != [] && EQUALS !in key {
      assert c[|key|] == EQUALS && c[0] == key[0];
    }
  }

  method CollectEntries(chunks: seq<Chunk>, start: nat) returns (envSlice: seq<Chunk>)
    requires start <= |chunks|
    ensures envSlice == Entries(chunks[start..])
  {
    envSlice := [];
    var i := start;
    while i < |chunks|
      invariant start <= i <= |chunks|
      invariant Entries(chunks[start..]) == envSlice + Entries(chunks[i..])
    {
      if chunks[i] == [] {
        break;
      }
      assert chunks[i..][1..] == chunks[i + 1..];
      EntryByIndex(chunks[i]);
      if 0 < IndexOf(chunks[i], EQUALS) < |chunks[i]| {
        envSlice := envSlice + [chunks[i]];
      }
      i := i + 1;
    }
  }

  /* ---- the layout the kernel writes ---- */

  function Empties(n: nat): (r: seq<Chunk>)
    ensures |r| == n && forall k :: 0 <= k < n ==> r[k] == []
  {
    seq(n, _ => [])
  }

  /** Every string is followed by a NUL, and each byte of padding is the NUL of an empty string. */
  function Layout(execPath: Chunk, pad: nat, argv: seq<Chunk>, envp: seq<Chunk>, rest: seq<byte>): seq<byte> {
    Terminated([execPath] + Empties(pad) + argv + envp, NUL) + rest
  }

  lemma LayoutChunks(execPath: Chunk, pad: nat, argv: seq<Chunk>, envp: seq<Chunk>, rest: seq<byte>)
    requires NUL !in execPath && AllFree(argv, NUL) && AllFree(envp, NUL)
    ensures SplitOn(Layout(execPath, pad, argv, envp, rest), NUL)
         == [execPath] + Empties(pad) + argv + envp + SplitOn(rest, NUL)
  {
    SplitOnTerminated([execPath] + Empties(pad) + argv + envp, NUL, rest);
  }

  /** Padding ends exactly where a non-empty chunk follows it. */
  lemma {:induction false} SkipExactly(chunks: seq<Chunk>, from: nat, to: nat)
    requires from <= to <= |chunks|
    requires forall k :: from <= k < to ==> chunks[k] == []
    ensures SkipEmpty(chunks, from) == SkipEmpty(chunks, to)
    decreases |chunks| - from
  {
    if from < to {
      SkipExactly(chunks, from + 1, to);
    }
  }

  /** argv is read back exactly when its first element is not the empty string. */
  lemma CmdlineRoundTrip(execPath: Chunk, pad: nat, argv: seq<Chunk>, envp: seq<Chunk>, rest: seq<byte>)
    requires NUL !in execPath && AllFree(argv, NUL) && AllFree(envp, NUL)
    ensures Cmdline(Layout(execPath, pad, argv, envp, rest), |argv|) == argv
       <==> (argv == [] || argv[0] != [])
  {
    LayoutChunks(execPath, pad, argv, envp, rest);
    var chunks := SplitOn(Layout(execPath, pad, argv, envp, rest), NUL);
    SkipExactly(chunks, 1, 1 + pad);
    var i := SkipEmpty(chunks, 1);
    if argv != [] {
      assert chunks[1 + pad] == argv[0];
      if argv[0] != [] {
        assert i == 1 + pad;
        assert chunks[i..i + |argv|] == argv;
      }
    }
  }

  lemma {:induction false} EntriesPrefix(a: seq<Chunk>, b: seq<Chunk>)
    requires forall k :: 0 <= k < |a| ==> IsEntry(a[k])
    ensures Entries(a + b) == a + Entries(b)
  {
    if a == [] {
      assert a + b == b;
    } else {
      EntriesPrefix(a[1..], b);
      assert (a + b)[1..] == a[1..] + b;
    }
  }

  predicate AllEntries(chunks: seq<Chunk>) {
    forall k :: 0 <= k < |chunks| ==> IsEntry(chunks[k])
  }

  /** None of the chunks before the first empty one is KEY=VALUE. */
  predicate NoEntryAhead(chunks: seq<Chunk>) {
    forall k :: 0 <= k < |chunks| && (forall j :: 0 <= j <= k ==> chunks[j] != []) ==> !IsEntry(chunks[k])
  }

  /** Nothing behind envp is taken for environment. */
  predicate NothingLeaks(rest: seq<byte>) {
    NoEntryAhead(SplitOn(rest, NUL))
  }

  lemma {:induction false} NoEntriesExactly(chunks: seq<Chunk>)
    ensures Entries(chunks) == [] <==> NoEntryAhead(chunks)
  {
    if chunks != [] && chunks[0] != [] {
      var rest := chunks[1..];
      NoEntriesExactly(rest);
      if NoEntryAhead(chunks) {
        forall k | 0 <= k < |rest| && (forall j :: 0 <= j <= k ==> rest[j] != []) ensures !IsEntry(rest[k]) {
          forall j | 0 <= j <= k + 1 ensures chunks[j] != [] {
            assert j > 0 ==> chunks[j] == rest[j - 1];
          }
          assert rest[k] == chunks[k + 1];
        }
        assert !IsEntry(chunks[0]);
      } else {
        var k :| 0 <= k < |chunks| && (forall j :: 0 <= j <= k ==> chunks[j] != []) && IsEntry(chunks[k]);
        if k > 0 {
          forall j | 0 <= j <= k - 1 ensures rest[j] != [] {
            assert rest[j] == chunks[j + 1];
          }
          assert IsEntry(rest[k - 1]);
        }
      }
    }
  }

  lemma PaddingStopsLeak(rest: seq<byte>)
    requires rest == [] || rest[0] == NUL
    ensures NothingLeaks(rest)
  {
    if rest != [] {
      SplitOnHead([], NUL, rest[1..]);
      assert rest == [] + [NUL] + rest[1..];
    }
    assert SplitOn(rest, NUL)[0] == [];
  }

  lemma {:induction false} SkipShift(a: seq<Chunk>, b: seq<Chunk>, from: nat)
    requires from <= |b|
    ensures SkipEmpty(a + b, |a| + from) == |a| + SkipEmpty(b, from)
    decreases |b| - from
  {
    if from < |b| {
      assert (a + b)[|a| + from] == b[from];
      if b[from] == [] {
        SkipShift(a, b, from + 1);
      }
    }
  }

  /** How many empty strings lead the arguments, the environment and what follows them. */
  function LeadingEmpty(argv: seq<Chunk>, envp: seq<Chunk>, rest: seq<byte>): nat {
    SkipEmpty(argv + envp + SplitOn(rest, NUL), 0)
  }

  /** The chunks behind the first `n`, if there are that many. */
  function Behind(chunks: seq<Chunk>, n: nat): seq<Chunk> {
    if n <= |chunks| then chunks[n..] else []
  }

  lemma EnvOfPadded(execPath: Chunk, pad: nat, argv: seq<Chunk>, more: seq<Chunk>)
    ensures EnvOf([execPath] + Empties(pad) + (argv + more), |argv|) == Entries(Behind(more, SkipEmpty(argv + more, 0)))
  {
    var before, behind := [execPath] + Empties(pad), argv + more;
    var chunks := before + behind;
    SkipExactly(chunks, 1, |before|);
    SkipShift(before, behind, 0);
    var e := SkipEmpty(behind, 0);
    var n := Clamp(|argv|, |behind| - e);
    assert chunks[|before| + e + n..] == behind[e + n..];
    assert behind[e + n..] == Behind(more, e);
  }

  /**
   * The whole of what parseEnviron returns on a laid-out buffer: every empty string at the head of
   * argv is taken for padding, so for each one a string too many is skipped before the environment.
   */
  lemma EnvironOfLayout(execPath: Chunk, pad: nat, argv: seq<Chunk>, envp: seq<Chunk>, rest: seq<byte>)
    requires NUL !in execPath && AllFree(argv, NUL) && AllFree(envp, NUL)
    ensures Environ(Layout(execPath, pad, argv, envp, rest), |argv|)
         == Entries(Behind(envp + SplitOn(rest, NUL), LeadingEmpty(argv, envp, rest)))
  {
    hide EnvOf, Entries, SplitOn, SkipEmpty, Layout, Behind, AllFree;
    var r := SplitOn(rest, NUL);
    LayoutChunks(execPath, pad, argv, envp, rest);
    assert [execPath] + Empties(pad) + argv + envp + r == [execPath] + Empties(pad) + (argv + (envp + r));
    assert argv + envp + r == argv + (envp + r);
    EnvOfPadded(execPath, pad, argv, envp + r);
  }

  /** The environment repeats itself every `e` strings, and the leaked strings are its last `e`. */
  predicate Repeats(envp: seq<Chunk>, e: nat, leaked: seq<Chunk>)
    requires e <= |envp|
  {
    envp[..|envp| - e] == envp[e..] && envp[|envp| - e..] == leaked
  }

  lemma ShiftedExactly(envp: seq<Chunk>, e: nat, leaked: seq<Chunk>)
    requires e <= |envp|
    ensures envp[e..] + leaked == envp <==> Repeats(envp, e, leaked)
  {
    var n := |envp| - e;
    assert envp == envp[..n] + envp[n..];
    assert (envp[e..] + leaked)[..n] == envp[e..] && (envp[e..] + leaked)[n..] == leaked;
  }

  /**
   * envp is read back exactly when every element is KEY=VALUE and the strings leaking in from behind
   * it make up, one by one, for those skipped on account of leading empty strings.
   */
  lemma EnvironRoundTrip(execPath: Chunk, pad: nat, argv: seq<Chunk>, envp: seq<Chunk>, rest: seq<byte>)
    requires NUL !in execPath && AllFree(argv, NUL) && AllFree(envp, NUL)
    ensures var e, r := LeadingEmpty(argv, envp, rest), SplitOn(rest, NUL);
            Environ(Layout(execPath, pad, argv, envp, rest), |argv|) == envp <==>
              && AllEntries(envp)
              && if e <= |envp| then Repeats(envp, e, Leaked(r)) else Leaked(Behind(r, e - |envp|)) == envp
  {
    hide *;
    EnvironOfLayout(execPath, pad, argv, envp, rest);
    ReadBackExactly(envp, SplitOn(rest, NUL), LeadingEmpty(argv, envp, rest));
  }

  lemma ReadBackExactly(envp: seq<Chunk>, r: seq<Chunk>, e: nat)
    ensures Entries(Behind(envp + r, e)) == envp <==>
              && AllEntries(envp)
              && if e <= |envp| then Repeats(envp, e, Leaked(r)) else Leaked(Behind(r, e - |envp|)) == envp
  {
    hide Repeats, IsEntry, Leaked;
    EntriesAreLeaked(r);
    if e > |envp| {
      EntriesAreLeaked(Behind(r, e - |envp|));
    }
    var found := Entries(Behind(envp + r, e));
    if !AllEntries(envp) {
      var k :| 0 <= k < |envp| && !IsEntry(envp[k]);
      assert envp[k] !in found;
    } else if e <= |envp| {
      assert Behind(envp + r, e) == envp[e..] + r;
      EntriesPrefix(envp[e..], r);
      ShiftedExactly(envp, e, Entries(r));
    } else {
      assert Behind(envp + r, e) == Behind(r, e - |envp|);
    }
  }

  /** When no empty string leads, that is: every element is KEY=VALUE and nothing leaks. */
  lemma EnvironRoundTripPlain(execPath: Chunk, pad: nat, argv: seq<Chunk>, envp: seq<Chunk>, rest: seq<byte>)
    requires NUL !in execPath && AllFree(argv, NUL) && AllFree(envp, NUL)
    requires argv + envp != [] && (argv + envp)[0] != []
    ensures Environ(Layout(execPath, pad, argv, envp, rest), |argv|) == envp <==> AllEntries(envp) && NothingLeaks(rest)
  {
    var r := SplitOn(rest, NUL);
    assert (argv + envp + r)[0] == (argv + envp)[0];
    EnvironRoundTrip(execPath, pad, argv, envp, rest);
    NoEntriesExactly(r);
    EntriesAreLeaked(r);
    assert envp[|envp|..] == [] && envp[..|envp|] == envp[0..];
  }

  /** When nothing leaks, each empty string leading argv costs one entry of the environment. */
  lemma EmptyArgsLoseEntries(execPath: Chunk, pad: nat, argv: seq<Chunk>, envp: seq<Chunk>, rest: seq<byte>)
    requires NUL !in execPath && AllFree(argv, NUL) && AllFree(envp, NUL)
    requires AllEntries(envp) && NothingLeaks(rest) && LeadingEmpty(argv, envp, rest) <= |envp|
    ensures Environ(Layout(execPath, pad, argv, envp, rest), |argv|) == envp[LeadingEmpty(argv, envp, rest)..]
  {
    var e, r := LeadingEmpty(argv, envp, rest), SplitOn(rest, NUL);
    EnvironOfLayout(execPath, pad, argv, envp, rest);
    assert Behind(envp + r, e) == envp[e..] + r;
    EntriesPrefix(envp[e..], r);
    NoEntriesExactly(r);
  }

  const A1: Chunk := [65, EQUALS, 49]
  const B2: Chunk := [66, EQUALS, 50]

  /** With a single empty argument, A=1 of the environment A=1, B=2 is lost. */
  lemma EmptyFirstArgument(execPath: Chunk, pad: nat)
    requires NUL !in execPath
    ensures AllEntries([A1, B2]) && NothingLeaks([])
    ensures Environ(Layout(execPath, pad, [[]], [A1, B2], []), 1) == [B2]
  {
    PaddingStopsLeak([]);
    var all := [[]] + [A1, B2] + SplitOn([], NUL);
    SkipExactly(all, 0, 1);
    assert all[1] == A1;
    EmptyArgsLoseEntries(execPath, pad, [[]], [A1, B2], []);
  }

  /**
   * With neither arguments nor environment the padding skip runs on over the boundary, so nothing is
   * returned exactly when the first run of non-empty strings behind it holds no KEY=VALUE.
   */
  lemma EnvironWithoutArgs(execPath: Chunk, pad: nat, rest: seq<byte>)
    requires NUL !in execPath
    ensures var r := SplitOn(rest, NUL);
            Environ(Layout(execPath, pad, [], [], rest), 0) == [] <==> NoEntryAhead(r[SkipEmpty(r, 0)..])
  {
    var r := SplitOn(rest, NUL);
    EnvironOfLayout(execPath, pad, [], [], rest);
    assert [] + [] + r == r && [] + r == r;
    assert Behind(r, SkipEmpty(r, 0)) == r[SkipEmpty(r, 0)..];
    NoEntriesExactly(r[SkipEmpty(r, 0)..]);
  }

  /** The padding that stops the reading everywhere else does not stop it here: A=1 is returned. */
  lemma NoArgsNoEnvironLeaks(execPath: Chunk, pad: nat, rest: seq<byte>)
    requires NUL !in execPath
    requires rest == Terminated([[], A1], NUL)
    ensures NothingLeaks(rest)
    ensures Environ(Layout(execPath, pad, [], [], rest), 0) == [A1]
  {
    hide Entries, SplitOn, SkipEmpty, Layout, Environ;
    SplitOnTerminated([[], A1], NUL, []);
    SplitOnNone([], NUL);
    assert rest + [] == rest;
    var r := SplitOn(rest, NUL);
    assert r == [[], A1, []] && r[0] == [];
    SkipExactly(r, 0, 1);
    SkipNone(r, 1);
    EnvironOfLayout(execPath, pad, [], [], rest);
    assert [] + [] + r == r && [] + r == r;
    assert Behind(r, 1) == [A1] + [[]];
    EntriesPrefix([A1], [[]]);
    NoEntriesExactly([[]]);
  }

  lemma SkipNone(chunks: seq<Chunk>, from: nat)
    requires from < |chunks| && chunks[from] != []
    ensures SkipEmpty(chunks, from) == from
  {
  }

  /** As many arguments as the count says, none for a negative one, and no more than there are chunks behind the padding. */
  lemma ArgumentCount(args: seq<byte>, nargs: int, start: nat)
    requires var chunks := SplitOn(args, NUL);
             && 1 <= start <= |chunks| && (start < |chunks| ==> chunks[start] != [])
             && forall k :: 1 <= k < start ==> chunks[k] == []
    ensures var room := |SplitOn(args, NUL)| - start;
            |Cmdline(args, nargs)| == if nargs < 0 then 0 else if nargs > room then room else nargs
  {
    var chunks := SplitOn(args, NUL);
    SkipExactly(chunks, 1, start);
  }

  /** In any buffer argv and envp come from disjoint, adjacent chunk ranges. */
  lemma ChunkRanges(args: seq<byte>, nargs: int) returns (start: nat, mid: nat, stop: nat)
    ensures start <= mid <= stop <= |SplitOn(args, NUL)|
    ensures Cmdline(args, nargs) == SplitOn(args, NUL)[start..mid]
    ensures Environ(args, nargs) == OnlyEntries(SplitOn(args, NUL)[mid..stop])
    ensures [] !in SplitOn(args, NUL)[mid..stop]
    ensures stop < |SplitOn(args, NUL)| ==> SplitOn(args, NUL)[stop] == []
  {
    var chunks := SplitOn(args, NUL);
    start := SkipEmpty(chunks, 1);
    mid := start + Clamp(nargs, |chunks| - start);
    var n := EntriesRange(chunks[mid..]);
    stop := mid + n;
    assert chunks[mid..][..n] == chunks[mid..stop];
  }

  function OnlyEntries(chunks: seq<Chunk>): seq<Chunk> {
    if chunks == [] then []
    else (if IsEntry(chunks[0]) then [chunks[0]] else []) + OnlyEntries(chunks[1..])
  }

  /** The KEY=VALUE strings before the first empty one. */
  function Leaked(chunks: seq<Chunk>): seq<Chunk> {
    OnlyEntries(chunks[..IndexOf(chunks, [])])
  }

  lemma EntriesAreLeaked(chunks: seq<Chunk>)
    ensures Entries(chunks) == Leaked(chunks)
  {
    var n := EntriesRange(chunks);
    assert forall k :: 0 <= k < n ==> chunks[k] == chunks[..n][k];
    assert IndexOf(chunks, []) == n;
  }

  lemma {:induction false} EntriesRange(chunks: seq<Chunk>) returns (n: nat)
    ensures n <= |chunks|
    ensures Entries(chunks) == OnlyEntries(chunks[..n])
    ensures [] !in chunks[..n]
    ensures n < |chunks| ==> chunks[n] == []
  {
    if chunks == [] || chunks[0] == [] {
      n := 0;
    } else {
      var m := EntriesRange(chunks[1..]);
      n := m + 1;
      assert chunks[..n] == [chunks[0]] + chunks[1..][..m];
    }
  }
}
