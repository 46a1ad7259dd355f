/**
 * The environment block of a Windows process: UTF-16 strings, each ended by a zero code unit,
 * the block ended by an empty string. The block is read in chunks of arbitrary size.
 */
module WindowsEnviron {
  import opened Text

  type Unit = u: nat | u < 0x1_0000

  /* ---- what a block of memory means, with no chunks in sight ---- */

  /** First even position at or after `from` holding a zero code unit, or the length. */
  function NulAt(data: seq<byte>, from: nat): (i: nat)
    ensures i + 1 < |data| ==> from <= i && data[i] == 0 && data[i + 1] == 0 && (i - from) % 2 == 0
    ensures i + 1 >= |data| ==> i == |data|
    decreases |data| - from
  {
    if from + 1 >= |data| then |data|
    else if data[from] == 0 && data[from + 1] == 0 then from
    else NulAt(data, from + 2)
  }

  datatype Cut = Cut(token: Option<seq<byte>>, rest: seq<byte>)

  /** The first string of a memory and what follows its zero unit; an unterminated one runs to the end. */
  function First(m: seq<byte>): (c: Cut)
    ensures c.token.Some? ==> |c.rest| < |m|
    ensures c.rest != [] ==> (|m| - |c.rest|) % 2 == 0
  {
    var i := NulAt(m, 0);
    if i + 1 < |m| then Cut(Some(m[..i]), m[i + 2..])
    else Cut(if m == [] then None else Some(m), [])
  }

  function Units(src: seq<byte>): (us: seq<Unit>)
    ensures |us| == |src| / 2
  {
    if |src| < 2 then [] else [src[0] as int + 0x100 * src[1] as int] + Units(src[2..])
  }

  /** The strings up to the first empty one, or up to the end of readable memory. */
  function Environment(m: seq<byte>): seq<seq<Unit>>
    decreases |m|
  {
    var c := First(m);
    if c.token.None? || c.token.value == [] then [] else [Units(c.token.value)] + Environment(c.rest)
  }

  /** A zero found in what has been read so far is the one the whole memory would give. */
  lemma {:induction false} NulAtPrefix(data: seq<byte>, memory: seq<byte>, from: nat)
    requires data <= memory
    requires NulAt(data, from) + 1 < |data|
    ensures NulAt(memory, from) == NulAt(data, from)
    decreases |data| - from
  {
    if !(data[from] == 0 && data[from + 1] == 0) {
      NulAtPrefix(data, memory, from + 2);
    }
  }

  /** What the split function says about the data read so far is right about all of memory. */
  lemma FirstOfPrefix(data: seq<byte>, m: seq<byte>, eof: bool)
    requires data <= m && (eof ==> data == m)
    ensures NulAt(data, 0) + 1 < |data| ==>
              First(m) == Cut(Some(data[..NulAt(data, 0)]), m[NulAt(data, 0) + 2..])
    ensures NulAt(data, 0) + 1 >= |data| && eof ==> First(m) == Cut(if data == [] then None else Some(data), [])
  {
    var i := NulAt(data, 0);
    if i + 1 < |data| {
      NulAtPrefix(data, m, 0);
      assert data[..i] == m[..i];
    }
  }

  /** In the memory from `p` to `stop` the first token is `token`, and what follows it starts at `q`. */
  predicate CutsAt(memory: seq<byte>, p: int, q: int, stop: int, token: Option<seq<byte>>) {
    0 <= p <= q <= stop <= |memory| && First(memory[p..stop]) == Cut(token, memory[q..stop])
  }

  /** The token found in what has been read, from `p` to `offset`, is right wherever reading may stop. */
  lemma TokenFound(memory: seq<byte>, p: nat, offset: nat, stop: nat)
    requires p <= offset <= stop <= |memory|
    ensures var data := memory[p..offset]; var i := NulAt(data, 0);
            && (i + 1 < |data| ==> CutsAt(memory, p, p + i + 2, stop, Some(data[..i])))
            && (i + 1 >= |data| && stop == offset ==> CutsAt(memory, p, offset, stop, if data == [] then None else Some(data)))
  {
    var data, m := memory[p..offset], memory[p..stop];
    assert data <= m;
    FirstOfPrefix(data, m, stop == offset);
    var i := NulAt(data, 0);
    if i + 1 < |data| {
      assert m[i + 2..] == memory[p + i + 2..stop];
    }
  }

  /** What the strings before `p` give, and then the rest of the memory up to `stop`. */
  predicate GivenBefore(memory: seq<byte>, start: int, p: int, stop: int, vars: seq<seq<Unit>>) {
    0 <= start <= p <= stop <= |memory| && Environment(memory[start..stop]) == vars + Environment(memory[p..stop])
  }

  lemma OneMoreString(memory: seq<byte>, start: int, p: int, q: int, stop: int, vars: seq<seq<Unit>>, token: Option<seq<byte>>)
    requires GivenBefore(memory, start, p, stop, vars) && CutsAt(memory, p, q, stop, token)
    ensures token.Some? && token.value != [] ==> GivenBefore(memory, start, q, stop, vars + [Units(token.value)])
    ensures token.None? || token.value == [] ==> Environment(memory[start..stop]) == vars
  {
    hide First, Units;
    if token.Some? && token.value != [] {
      assert vars + ([Units(token.value)] + Environment(memory[q..stop])) == vars + [Units(token.value)] + Environment(memory[q..stop]);
    } else {
      assert vars + [] == vars;
    }
  }

  /* ---- the reader, the split function and the scanner ---- */

  /**
   * Reads another process's memory. A call may return fewer bytes than there is room for, and it may
   * be refused although bytes are left, as when the request reaches beyond what is readable.
   */
  class ProcessReader {
    const memory: seq<byte>
    var offset: nat
    ghost var refused: bool

    ghost predicate Valid()
      reads this
    {
      offset <= |memory|
    }

    constructor (memory: seq<byte>)
      ensures Valid() && this.memory == memory && offset == 0 && !refused
    {
      this.memory, offset, refused := memory, 0, false;
    }

    method Read(room: nat) returns (chunk: seq<byte>)
      requires Valid() && room > 0
      modifies this
      ensures Valid() && offset == old(offset) + |chunk| && |chunk| <= room
      ensures chunk == memory[old(offset)..offset]
      ensures refused == (old(refused) || (chunk == [] && offset < |memory|))
    {
      var refuse: bool := *;
      if offset == |memory| || refuse {
        refused := refused || offset < |memory|;
        return [];
      }
      var n :| 1 <= n <= room && offset + n <= |memory|;
      chunk := memory[offset..offset + n];
      offset := offset + n;
    }
  }

  /** Looks for a zero code unit; no token and no advance asks for more data. */
  method SplitAtNul(data: seq<byte>, atEOF: bool) returns (advance: nat, token: Option<seq<byte>>)
    ensures var i := NulAt(data, 0);
            if i + 1 < |data| then advance == i + 2 && token == Some(data[..i])
            else if atEOF && data != [] then advance == |data| && token == Some(data)
            else advance == 0 && token == None
  {
    if atEOF && |data| == 0 {
      return 0, None;
    }
    var i := 0;
    while i < |data| - 1
      invariant 0 <= i
      invariant NulAt(data, 0) == NulAt(data, i)
    {
      if data[i] == 0 && data[i + 1] == 0 {
        return i + 2, Some(data[..i]);
      }
      i := i + 2;
    }
    if atEOF {
      return |data|, Some(data);
    }
    return 0, None;
  }

  /** The token loop: ask the split function, read more when it asks for more. */
  class Scanner {
    const reader: ProcessReader
    var data: seq<byte>
    var eof: bool

    /** Where in memory the unconsumed data starts. */
    ghost function Position(): int
      reads this, reader
    {
      reader.offset - |data|
    }

    ghost predicate Valid()
      reads this, reader
    {
      && reader.Valid()
      && 0 <= Position()
      && data == reader.memory[Position()..reader.offset]
      && (eof && !reader.refused ==> reader.offset == |reader.memory|)
    }

    /** Memory may turn out to be readable up to `stop`: no less than was read, and no more once reading has ended. */
    ghost predicate MayStop(stop: nat)
      reads this, reader
    {
      reader.offset <= stop <= |reader.memory| && (eof ==> stop == reader.offset)
    }

    constructor (reader: ProcessReader)
      requires reader.Valid()
      ensures Valid() && this.reader == reader && Position() == reader.offset && !eof
    {
      this.reader, data, eof := reader, [], false;
    }

    /**
     * The token and what is left depend only on the memory that can be read, not on how it was cut
     * into chunks; a token that ends at a zero unit leaves the position at the parity it had.
     */
    method Scan() returns (token: Option<seq<byte>>)
      requires Valid()
      modifies this, reader
      ensures Valid() && (old(eof) ==> eof) && old(reader.offset) <= reader.offset && (old(reader.refused) ==> reader.refused)
      ensures old(eof) ==> reader.offset == old(reader.offset)
      ensures forall stop: nat :: MayStop(stop) ==> CutsAt(reader.memory, old(Position()), Position(), stop, token)
      ensures old(Position()) <= Position() && (token.Some? ==> old(Position()) < Position())
      ensures (Position() - old(Position())) % 2 == 0 || (eof && Position() == reader.offset)
    {
      hide CutsAt, NulAt;
      ghost var p := Position();
      while true
        invariant Valid() && Position() == p && (old(eof) ==> eof && reader.offset == old(reader.offset))
        invariant old(reader.offset) <= reader.offset && (old(reader.refused) ==> reader.refused)
        decreases |reader.memory| - reader.offset, !eof
      {
        if data != [] || eof {
          var advance, tok := SplitAtNul(data, eof);
          if tok.Some? {
            ghost var m, offset := reader.memory, reader.offset;
            ghost var was := data;
            data := data[advance..];
            assert Position() == p + advance;
            forall stop: nat | MayStop(stop) ensures CutsAt(m, p, Position(), stop, tok) {
              assert was == m[p..offset];
              TokenFound(m, p, offset, stop);
            }
            return tok;
          }
        }
        if eof {
          TokenFound(reader.memory, p, reader.offset, reader.offset);
          data := [];
          return None;
        }
        Fill();
      }
    }

    /** Reads the next chunk, or notes that reading has ended. */
    method Fill()
      requires Valid() && !eof
      modifies this, reader
      ensures Valid() && Position() == old(Position()) && (old(reader.refused) ==> reader.refused)
      ensures reader.offset > old(reader.offset) || (eof && reader.offset == old(reader.offset))
    {
      var room :| 1 <= room <= 0x1_0000;
      var chunk := reader.Read(room);
      if chunk == [] {
        eof := true;
      } else {
        data := data + chunk;
      }
    }
  }

  lemma UnitsFrom(src: seq<byte>, i: nat)
    requires i + 2 <= |src|
    ensures Units(src[i..]) == [src[i] as int + 0x100 * src[i + 1] as int] + Units(src[i + 2..])
  {
    assert src[i..][2..] == src[i + 2..];
  }

  method ConvertUTF16(src: seq<byte>) returns (codePoints: seq<Unit>)
    ensures codePoints == Units(src)
  {
    hide Units;
    var srcLen := |src| / 2;
    assert src[0..] == src;
    codePoints := [];
    var srcIdx := 0;
    for i := 0 to srcLen
      invariant |codePoints| == i && srcIdx == 2 * i
      invariant Units(src) == codePoints + Units(src[srcIdx..])
    {
      UnitsFrom(src, srcIdx);
      codePoints := codePoints + [src[srcIdx] as int + 0x100 * src[srcIdx + 1] as int];
      srcIdx := srcIdx + 2;
    }
    NoUnitsLeft(src[srcIdx..]);
  }

  lemma NoUnitsLeft(src: seq<byte>)
    requires |src| < 2
    ensures Units(src) == []
  {
  }

  /**
   * Whatever chunks the reader returns, the result is the environment of the memory up to some point;
   * unless a read was refused before the end, of all memory at the reader's offset.
   */
  method EnvironmentVariables(reader: ProcessReader) returns (envVars: seq<seq<Unit>>, ghost stop: nat)
    requires reader.Valid() && !reader.refused
    modifies reader
    ensures old(reader.offset) <= stop <= |reader.memory|
    ensures envVars == Environment(reader.memory[old(reader.offset)..stop])
    ensures !reader.refused ==> stop == |reader.memory|
  {
    hide CutsAt, GivenBefore, Environment, Units;
    var scanner := new Scanner(reader);
    ghost var start := reader.offset;
    envVars := [];
    NothingGiven(reader.memory, start);
    while true
      invariant scanner.Valid() && scanner.reader == reader && fresh(scanner)
      invariant start <= scanner.Position()
      invariant forall stop: nat :: scanner.MayStop(stop) ==>
                  GivenBefore(reader.memory, start, scanner.Position(), stop, envVars)
      decreases |reader.memory| - scanner.Position()
    {
      ghost var p := scanner.Position();
      var token := scanner.Scan();
      if token.None? || token.value == [] {
        stop := if scanner.eof then reader.offset else |reader.memory|;
        assert scanner.MayStop(stop);
        OneMoreString(reader.memory, start, p, scanner.Position(), stop, envVars, token);
        return;
      }
      var units := ConvertUTF16(token.value);
      forall stop: nat | scanner.MayStop(stop)
        ensures GivenBefore(reader.memory, start, scanner.Position(), stop, envVars + [units])
      {
        OneMoreString(reader.memory, start, p, scanner.Position(), stop, envVars, token);
      }
      envVars := envVars + [units];
    }
  }

  lemma NothingGiven(memory: seq<byte>, start: nat)
    ensures forall stop: nat :: start <= stop <= |memory| ==> GivenBefore(memory, start, start, stop, [])
  {
  }

  /* ---- writing a block and reading it back ---- */

  function Bytes(us: seq<Unit>): (bs: seq<byte>)
    ensures |bs| == 2 * |us|
  {
    if us == [] then [] else [(us[0] % 0x100) as byte, (us[0] / 0x100) as byte] + Bytes(us[1..])
  }

  function Block(vars: seq<seq<Unit>>): seq<byte> {
    if vars == [] then [] else Bytes(vars[0]) + [0, 0] + Block(vars[1..])
  }

  lemma {:induction false} UnitsOfBytes(us: seq<Unit>)
    ensures Units(Bytes(us)) == us
  {
    if us != [] {
      UnitsOfBytes(us[1..]);
      assert Bytes(us)[2..] == Bytes(us[1..]);
    }
  }

  lemma {:induction false} NulAtEndOfString(before: seq<byte>, us: seq<Unit>, tail: seq<byte>)
    requires |before| % 2 == 0 && 0 !in us
    ensures NulAt(before + Bytes(us) + [0, 0] + tail, |before|) == |before| + 2 * |us|
    decreases |us|
  {
    var m := before + Bytes(us) + [0, 0] + tail;
    if us == [] {
      assert m[|before|] == 0 && m[|before| + 1] == 0;
    } else {
      var head := [(us[0] % 0x100) as byte, (us[0] / 0x100) as byte];
      assert us[0] in us;
      assert m[|before|] == head[0] && m[|before| + 1] == head[1];
      assert m == before + head + Bytes(us[1..]) + [0, 0] + tail;
      NulAtEndOfString(before + head, us[1..], tail);
    }
  }

  lemma FirstOfBlock(us: seq<Unit>, tail: seq<byte>)
    requires 0 !in us
    ensures First(Bytes(us) + [0, 0] + tail) == Cut(Some(Bytes(us)), tail)
  {
    var bs := Bytes(us);
    var m := bs + [0, 0] + tail;
    assert m == [] + bs + [0, 0] + tail;
    NulAtEndOfString([], us, tail);
    assert m[..|bs|] == bs && m[|bs| + 2..] == tail;
  }

  /** A well-formed block is read back exactly, whatever memory follows its end. */
  lemma {:induction false} EnvironmentRoundTrip(vars: seq<seq<Unit>>, rest: seq<byte>)
    requires forall k :: 0 <= k < |vars| ==> vars[k] != [] && 0 !in vars[k]
    ensures Environment(Block(vars) + [0, 0] + rest) == vars
  {
    if vars == [] {
      FirstOfBlock([], rest);
      assert Block(vars) + [0, 0] + rest == Bytes([]) + [0, 0] + rest;
    } else {
      var tail := Block(vars[1..]) + [0, 0] + rest;
      FirstOfBlock(vars[0], tail);
      assert Block(vars) + [0, 0] + rest == Bytes(vars[0]) + [0, 0] + tail;
      UnitsOfBytes(vars[0]);
      EnvironmentRoundTrip(vars[1..], rest);
    }
  }

  /** Units of whole and half code units: a byte without its second half is dropped. */
  lemma {:induction false} UnitsOfPrefix(us: seq<Unit>, odd: seq<byte>)
    requires |odd| <= 1
    ensures Units(Bytes(us) + odd) == us
  {
    if us != [] {
      UnitsOfPrefix(us[1..], odd);
      assert (Bytes(us) + odd)[2..] == Bytes(us[1..]) + odd;
    }
  }

  /** Memory that ends before the zero unit of its first string is one token. */
  lemma FirstCutShort(us: seq<Unit>, tail: seq<byte>, stop: nat)
    requires 0 !in us && stop <= 2 * |us| + 1
    ensures var data := (Bytes(us) + [0, 0] + tail)[..stop];
            First(data) == Cut(if stop == 0 then None else Some(data), [])
  {
    hide Bytes;
    var m := Bytes(us) + [0, 0] + tail;
    var data := m[..stop];
    assert m == [] + Bytes(us) + [0, 0] + tail;
    NulAtEndOfString([], us, tail);
    if NulAt(data, 0) + 1 < |data| {
      NulAtPrefix(data, m, 0);
    }
  }

  lemma EnvironmentCutShort(us: seq<Unit>, tail: seq<byte>, stop: nat)
    requires us != [] && 0 !in us && stop <= 2 * |us| + 1
    ensures var found := Environment((Bytes(us) + [0, 0] + tail)[..stop]);
            |found| <= 1 && (found == [us] <==> stop >= 2 * |us|)
  {
    hide First, Environment, Units, Bytes;
    var data := (Bytes(us) + [0, 0] + tail)[..stop];
    FirstCutShort(us, tail, stop);
    OneToken(data);
    if stop >= 2 * |us| {
      var odd := [0 as byte][..stop - 2 * |us|];
      UnitsOfPrefix(us, odd);
      assert data == Bytes(us) + odd;
    } else if stop > 0 {
      assert |Units(data)| < |us|;
    }
  }

  lemma OneToken(data: seq<byte>)
    requires First(data) == Cut(if data == [] then None else Some(data), [])
    ensures Environment(data) == if data == [] then [] else [Units(data)]
  {
    hide Units;
    assert First([]) == Cut(None, []);
    assert Environment([]) == [];
  }

  lemma FirstStringRead(us: seq<Unit>, tail: seq<byte>)
    requires us != [] && 0 !in us
    ensures Environment(Bytes(us) + [0, 0] + tail) == [us] + Environment(tail)
  {
    FirstOfBlock(us, tail);
    UnitsOfBytes(us);
  }

  lemma {:induction false} BlockLength(vars: seq<seq<Unit>>)
    requires forall k :: 0 <= k < |vars| ==> vars[k] != []
    ensures vars == [] || |Block(vars)| >= 4
  {
  }

  lemma EmptyBlockCut(rest: seq<byte>, stop: nat)
    requires stop <= 2 + |rest|
    ensures Environment(([0, 0] + rest)[..stop]) == [] <==> stop != 1
  {
    var m := ([0, 0] + rest)[..stop];
    if stop >= 2 {
      FirstOfBlock([], rest[..stop - 2]);
      assert m == Bytes([]) + [0, 0] + rest[..stop - 2];
    } else {
      FirstCutShort([], rest, stop);
      assert Bytes([]) + [0, 0] + rest == [0, 0] + rest;
    }
  }

  /**
   * Reading may end anywhere in or behind a block. The variables are returned exactly when it ends no
   * earlier than the last string does, and not between the two bytes of the block's own end.
   */
  lemma {:induction false} ReadFarEnough(vars: seq<seq<Unit>>, rest: seq<byte>, stop: nat)
    requires forall k :: 0 <= k < |vars| ==> vars[k] != [] && 0 !in vars[k]
    requires stop <= |Block(vars)| + 2 + |rest|
    ensures Environment((Block(vars) + [0, 0] + rest)[..stop]) == vars
       <==> |Block(vars)| <= stop + 2 && stop != |Block(vars)| + 1
    decreases |vars|
  {
    if vars == [] {
      assert Block(vars) + [0, 0] + rest == [0, 0] + rest;
      EmptyBlockCut(rest, stop);
    } else {
      hide *;
      BlockSplit(vars, rest);
      var us, tail := vars[0], Block(vars[1..]) + [0, 0] + rest;
      if stop >= 2 * |us| + 2 {
        ReadFarEnough(vars[1..], rest, stop - 2 * |us| - 2);
        StoppedBehindFirst(vars, tail, stop);
      } else {
        StoppedInFirst(vars, tail, stop);
      }
    }
  }

  lemma StoppedBehindFirst(vars: seq<seq<Unit>>, tail: seq<byte>, stop: nat)
    requires vars != [] && vars[0] != [] && 0 !in vars[0]
    requires 2 * |vars[0]| + 2 <= stop <= 2 * |vars[0]| + 2 + |tail|
    ensures Environment((Bytes(vars[0]) + [0, 0] + tail)[..stop]) == vars
       <==> Environment(tail[..stop - 2 * |vars[0]| - 2]) == vars[1..]
  {
    hide Environment, Bytes;
    var us, n := vars[0], 2 * |vars[0]| + 2;
    CutBehind(Bytes(us) + [0, 0], tail, stop);
    FirstStringRead(us, tail[..stop - n]);
    SameTail(us, Environment(tail[..stop - n]), vars);
  }

  lemma StoppedInFirst(vars: seq<seq<Unit>>, tail: seq<byte>, stop: nat)
    requires vars != [] && stop <= 2 * |vars[0]| + 1 <= 2 * |vars[0]| + |tail|
    requires forall k :: 0 <= k < |vars| ==> vars[k] != [] && 0 !in vars[k]
    ensures Environment((Bytes(vars[0]) + [0, 0] + tail)[..stop]) == vars <==> 2 * |vars[0]| + |Block(vars[1..])| <= stop
  {
    hide Environment, Bytes, Block;
    EnvironmentCutShort(vars[0], tail, stop);
    BlockLength(vars[1..]);
    BlockOfNothing();
    assert |vars| == 1 ==> vars == [vars[0]];
  }

  lemma Regroup(a: seq<byte>, b: seq<byte>, c: seq<byte>, d: seq<byte>, e: seq<byte>)
    ensures a + b + c + d + e == a + b + (c + d + e)
  {
  }

  lemma BlockSplit(vars: seq<seq<Unit>>, rest: seq<byte>)
    requires vars != []
    ensures Block(vars) + [0, 0] + rest == Bytes(vars[0]) + [0, 0] + (Block(vars[1..]) + [0, 0] + rest)
    ensures |Block(vars)| == 2 * |vars[0]| + 2 + |Block(vars[1..])|
  {
    hide Bytes;
    Regroup(Bytes(vars[0]), [0, 0], Block(vars[1..]), [0, 0], rest);
  }

  lemma BlockOfNothing()
    ensures Block([]) == []
  {
  }

  lemma CutBehind(a: seq<byte>, b: seq<byte>, stop: nat)
    requires |a| <= stop <= |a| + |b|
    ensures (a + b)[..stop] == a + b[..stop - |a|]
  {
  }

  lemma SameTail(us: seq<Unit>, found: seq<seq<Unit>>, vars: seq<seq<Unit>>)
    requires vars != [] && vars[0] == us
    ensures [us] + found == vars <==> found == vars[1..]
  {
    assert vars == [us] + vars[1..] && ([us] + found)[1..] == found;
  }
}
