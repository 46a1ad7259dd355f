/** Hexadecimal text: printing, and the two parsers used on it. */
module Hexadecimal {
  import opened Text

  function HexDigit(n: nat): char
    requires n < 16
  {
    if n < 10 then '0' + n as char else 'A' + (n - 10) as char
  }

  /** `%0wX` of a value below 16^w. */
  function Hex(n: nat, w: nat): string {
    if w == 0 then "" else Hex(n / 16, w - 1) + [HexDigit(n % 16)]
  }

  function HexByte(b: byte): string {
    [HexDigit(b as int / 16), HexDigit(b as int % 16)]
  }

  /** The hexadecimal text of the bytes, last byte first. */
  function HexReversed(bs: seq<byte>): string {
    if bs == [] then "" else HexReversed(bs[1..]) + HexByte(bs[0])
  }

  function LittleEndian(bs: seq<byte>): nat {
    if bs == [] then 0 else bs[0] as int + 0x100 * LittleEndian(bs[1..])
  }

  lemma LowNibbles(b: nat, m: nat)
    requires b < 0x100
    ensures var n := b + 0x100 * m; n % 16 == b % 16 && (n / 16) % 16 == b / 16 && n / 16 / 16 == m
  {
  }

  lemma HexLowByte(b: byte, m: nat, w: nat)
    ensures Hex(b as int + 0x100 * m, w + 2) == Hex(m, w) + HexByte(b)
  {
    var n := b as int + 0x100 * m;
    LowNibbles(b as int, m);
    assert Hex(n, w + 2) == Hex(n / 16, w + 1) + [HexDigit(n % 16)];
    assert Hex(n / 16, w + 1) == Hex(n / 16 / 16, w) + [HexDigit(n / 16 % 16)];
  }

  /** Printing a little-endian value prints its bytes in reverse order. */
  lemma {:induction false} HexOfLittleEndian(bs: seq<byte>)
    ensures Hex(LittleEndian(bs), 2 * |bs|) == HexReversed(bs)
  {
    if bs != [] {
      HexOfLittleEndian(bs[1..]);
      HexLowByte(bs[0], LittleEndian(bs[1..]), 2 * |bs| - 2);
    }
  }

  lemma {:induction false} HexReversedConcat(a: seq<byte>, b: seq<byte>)
    ensures HexReversed(a + b) == HexReversed(b) + HexReversed(a)
  {
    if a == [] {
      assert a + b == b;
    } else {
      hide HexByte;
      assert (a + b)[1..] == a[1..] + b;
      HexReversedConcat(a[1..], b);
    }
  }

  /** The hexadecimal text of the bytes in order. */
  function HexBytes(bs: seq<byte>): string {
    if bs == [] then "" else HexByte(bs[0]) + HexBytes(bs[1..])
  }

  function Reversed<T>(s: seq<T>): (r: seq<T>)
    ensures |r| == |s| && forall k :: 0 <= k < |s| ==> r[k] == s[|s| - 1 - k]
  {
    seq(|s|, k requires 0 <= k < |s| => s[|s| - 1 - k])
  }

  lemma {:induction false} HexBytesConcat(a: seq<byte>, b: seq<byte>)
    ensures HexBytes(a + b) == HexBytes(a) + HexBytes(b)
  {
    if a == [] {
      assert a + b == b;
    } else {
      hide HexByte;
      assert (a + b)[1..] == a[1..] + b;
      HexBytesConcat(a[1..], b);
    }
  }

  lemma {:induction false} HexReversedIsHexBytes(bs: seq<byte>)
    ensures HexReversed(bs) == HexBytes(Reversed(bs))
  {
    if bs == [] {
      assert Reversed(bs) == [];
    } else {
      HexReversedIsHexBytes(bs[1..]);
      HexBytesConcat(Reversed(bs[1..]), [bs[0]]);
      assert Reversed(bs) == Reversed(bs[1..]) + [bs[0]];
      assert HexBytes([bs[0]]) == HexByte(bs[0]) + HexBytes([]);
    }
  }

  /* ---- parsing ---- */

  function DigitValue(c: char): (r: Option<nat>)
    ensures r.Some? ==> r.value < 16
  {
    if '0' <= c <= '9' then Some((c - '0') as int)
    else if 'A' <= c <= 'F' then Some(10 + (c - 'A') as int)
    else if 'a' <= c <= 'f' then Some(10 + (c - 'a') as int)
    else None
  }

  /** hex.DecodeString: an even number of hexadecimal digits. */
  function DecodeHex(s: string): Option<seq<byte>> {
    if s == "" then Some([])
    else if |s| == 1 then None
    else
      var hi, lo, rest := DigitValue(s[0]), DigitValue(s[1]), DecodeHex(s[2..]);
      if hi.Some? && lo.Some? && rest.Some? then Some([(16 * hi.value + lo.value) as byte] + rest.value) else None
  }

  lemma {:induction false} DecodeHexBytes(bs: seq<byte>)
    ensures DecodeHex(HexBytes(bs)) == Some(bs)
  {
    if bs != [] {
      DecodeHexBytes(bs[1..]);
      var s := HexBytes(bs);
      assert s[2..] == HexBytes(bs[1..]);
      var b := bs[0] as int;
      assert DigitValue(s[0]) == Some(b / 16) && DigitValue(s[1]) == Some(b % 16);
      assert (16 * (b / 16) + b % 16) as byte == bs[0];
      assert [bs[0]] + bs[1..] == bs;
    }
  }

  /** strconv.ParseUint(s, 16, bits) with limit == 2^bits, given at least one digit. */
  function HexValue(s: string): Option<nat> {
    if s == "" then Some(0)
    else
      var n := |s| - 1;
      var high, low := HexValue(s[..n]), DigitValue(s[n]);
      if high.Some? && low.Some? then Some(16 * high.value + low.value) else None
  }

  function ParseHex(s: string, limit: nat): Option<nat> {
    var v := HexValue(s);
    if s == "" || v.None? || v.value >= limit then None else v
  }

  function Power16(w: nat): nat {
    if w == 0 then 1 else 16 * Power16(w - 1)
  }

  lemma {:induction false} HexValueOfHex(n: nat, w: nat)
    requires n < Power16(w)
    ensures |Hex(n, w)| == w && HexValue(Hex(n, w)) == Some(n)
  {
    if w != 0 {
      HexValueOfHex(n / 16, w - 1);
      var s := Hex(n, w);
      assert s[..|s| - 1] == Hex(n / 16, w - 1);
    }
  }

  /** Neither the separator nor any other non-digit occurs in printed hexadecimal. */
  lemma {:induction false} HexHasNoColon(bs: seq<byte>, n: nat, w: nat)
    ensures ':' !in HexBytes(bs)
    ensures ':' !in Hex(n, w)
    decreases |bs| + w
  {
    if bs != [] {
      HexHasNoColon(bs[1..], n, w);
    } else if w != 0 {
      HexHasNoColon(bs, n / 16, w - 1);
    }
  }
}
