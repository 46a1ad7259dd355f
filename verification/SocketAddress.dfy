/**
 * Socket addresses as /proc/net writes them: 32-bit words in hexadecimal, in host byte order,
 * then a colon and the port. The decoder undoes the byte order by reversing bytes in place.
 */
module SocketAddress {
  import opened Text
  import opened Hexadecimal

  datatype Family = INET | INET6 | UNIX

  datatype Endpoint = Endpoint(ip: seq<byte>, port: nat)

  /** Each whole 4-byte word reversed. */
  function WordsReversed(bs: seq<byte>): (r: seq<byte>)
    ensures |r| == |bs| - |bs| % 4
  {
    if |bs| < 4 then [] else Reversed(bs[..4]) + WordsReversed(bs[4..])
  }

  /* ---- in-place reversal ---- */

  /** Reverses the slice a[lo..hi] and touches nothing else. */
  method Reverse(a: array<byte>, lo: nat, hi: nat)
    requires lo <= hi <= a.Length
    modifies a
    ensures a[..lo] == old(a[..lo]) && a[hi..] == old(a[hi..])
    ensures a[lo..hi] == Reversed(old(a[lo..hi]))
  {
    var i, j := lo, hi - 1;
    while i < j
      invariant lo <= i <= j + 1 && i + j == lo + hi - 1 && j < hi
      invariant forall k :: 0 <= k < lo || hi <= k < a.Length || i <= k <= j ==> a[k] == old(a[k])
      invariant forall k :: lo <= k < i || j < k < hi ==> a[k] == old(a[lo + hi - 1 - k])
    {
      a[i], a[j] := a[j], a[i];
      i, j := i + 1, j - 1;
    }
    forall k | 0 <= k < hi - lo ensures a[lo..hi][k] == Reversed(old(a[lo..hi]))[k] {
      assert a[lo + k] == old(a[lo + hi - 1 - (lo + k)]);
    }
  }

  lemma NextWord(bs: seq<byte>, i: nat)
    requires i + 4 <= |bs|
    ensures WordsReversed(bs[i..]) == Reversed(bs[i..i + 4]) + WordsReversed(bs[i + 4..])
  {
    assert bs[i..][..4] == bs[i..i + 4] && bs[i..][4..] == bs[i + 4..];
  }

  lemma NoWordsLeft(bs: seq<byte>)
    ensures WordsReversed(bs[|bs|..]) == []
  {
  }

  method ParseIPv6HexString(src: array<byte>) returns (ip: Option<seq<byte>>)
    modifies src
    ensures ip == if src.Length != 16 then None else Some(WordsReversed(old(src[..])))
  {
    if src.Length != 16 {
      return None;
    }
    var buf := ReverseWords(src);
    ip := Some(buf);
  }

  method ReverseWords(src: array<byte>) returns (buf: seq<byte>)
    requires src.Length % 4 == 0
    modifies src
    ensures buf == WordsReversed(old(src[..]))
  {
    hide WordsReversed, Reversed;
    ghost var was := src[..];
    assert was[0..] == was;
    buf := [];
    var i := 0;
    while i < src.Length
      invariant 0 <= i <= src.Length && i % 4 == 0
      invariant src[i..] == was[i..]
      invariant WordsReversed(was) == buf + WordsReversed(was[i..])
    {
      NextWord(was, i);
      ghost var tail := src[i + 4..];
      assert src[i..i + 4] == was[i..i + 4] && tail == was[i + 4..] by {
        assert src[i..][..4] == was[i..][..4] && src[i..][4..] == was[i..][4..];
      }
      Reverse(src, i, i + 4);
      assert src[i + 4..] == tail;
      buf := buf + src[i..i + 4];
      i := i + 4;
    }
    NoWordsLeft(was);
    assert buf + [] == buf;
  }

  /* ---- decoding ---- */

  /** What decodeAddress computes; the IPv6 branch reverses on every host. */
  function Decoded(family: Family, src: string, littleEndian: bool): Option<Endpoint> {
    var t := SplitOn(src, ':');
    if |t| != 2 then None
    else
      var port, decoded := ParseHex(t[1], 0x1_0000), DecodeHex(t[0]);
      if port.None? || decoded.None? then None
      else if family == INET then
        Some(Endpoint(if littleEndian then Reversed(decoded.value) else decoded.value, port.value))
      else if |decoded.value| != 16 then None
      else Some(Endpoint(WordsReversed(decoded.value), port.value))
  }

  method DecodeAddress(family: Family, src: string, littleEndian: bool) returns (r: Option<Endpoint>)
    ensures r == Decoded(family, src, littleEndian)
  {
    var t := SplitOn(src, ':');
    if |t| != 2 {
      return None;
    }
    var port := ParseHex(t[1], 0x1_0000);
    if port.None? {
      return None;
    }
    var decoded := DecodeHex(t[0]);
    if decoded.None? {
      return None;
    }
    var bs := new byte[|decoded.value|](i requires 0 <= i < |decoded.value| => decoded.value[i]);
    assert bs[..] == decoded.value;
    if family == INET {
      if littleEndian {
        assert bs[0..bs.Length] == decoded.value;
        Reverse(bs, 0, bs.Length);
        assert bs[..] == bs[0..bs.Length];
      }
      return Some(Endpoint(bs[..], port.value));
    }
    var ip := ParseIPv6HexString(bs);
    if ip.None? {
      return None;
    }
    return Some(Endpoint(ip.value, port.value));
  }

  /* ---- what the kernel writes is read back ---- */

  function WordText(word: seq<byte>, littleEndian: bool): string {
    if littleEndian then HexReversed(word) else HexBytes(word)
  }

  function WordsText(ip: seq<byte>, littleEndian: bool): string {
    if |ip| < 4 then "" else WordText(ip[..4], littleEndian) + WordsText(ip[4..], littleEndian)
  }

  function KernelText(e: Endpoint, littleEndian: bool): string {
    WordsText(e.ip, littleEndian) + ":" + Hex(e.port, 4)
  }

  lemma {:induction false} WordsTextIsHex(ip: seq<byte>, littleEndian: bool)
    requires |ip| % 4 == 0
    ensures WordsText(ip, littleEndian) == HexBytes(if littleEndian then WordsReversed(ip) else ip)
  {
    if |ip| >= 4 {
      WordsTextIsHex(ip[4..], littleEndian);
      HexReversedIsHexBytes(ip[..4]);
      HexBytesConcat(Reversed(ip[..4]), WordsReversed(ip[4..]));
      HexBytesConcat(ip[..4], ip[4..]);
      assert ip[..4] + ip[4..] == ip;
    }
  }

  lemma {:induction false} WordsReversedTwice(bs: seq<byte>)
    requires |bs| % 4 == 0
    ensures WordsReversed(WordsReversed(bs)) == bs
  {
    if |bs| >= 4 {
      WordsReversedTwice(bs[4..]);
      var r := WordsReversed(bs);
      assert r[..4] == Reversed(bs[..4]) && r[4..] == WordsReversed(bs[4..]);
      assert Reversed(r[..4]) == bs[..4];
      assert bs[..4] + bs[4..] == bs;
    }
  }

  lemma DecodedKernelText(family: Family, e: Endpoint, littleEndian: bool)
    requires |e.ip| % 4 == 0 && e.port < 0x1_0000
    ensures var bs := if littleEndian then WordsReversed(e.ip) else e.ip;
            Decoded(family, KernelText(e, littleEndian), littleEndian) ==
              if family == INET then Some(Endpoint(if littleEndian then Reversed(bs) else bs, e.port))
              else if |bs| != 16 then None
              else Some(Endpoint(WordsReversed(bs), e.port))
  {
    var bs := if littleEndian then WordsReversed(e.ip) else e.ip;
    KernelTextParts(e, littleEndian);
    DecodeHexBytes(bs);
    assert Power16(4) == 0x1_0000;
    HexValueOfHex(e.port, 4);
  }

  lemma KernelTextParts(e: Endpoint, littleEndian: bool)
    requires |e.ip| % 4 == 0
    ensures SplitOn(KernelText(e, littleEndian), ':')
         == [HexBytes(if littleEndian then WordsReversed(e.ip) else e.ip), Hex(e.port, 4)]
  {
    var bs := if littleEndian then WordsReversed(e.ip) else e.ip;
    WordsTextIsHex(e.ip, littleEndian);
    HexHasNoColon(bs, e.port, 4);
    SplitOnHead(HexBytes(bs), ':', Hex(e.port, 4));
    SplitOnNone(Hex(e.port, 4), ':');
  }

  lemma OneWord(w: seq<byte>)
    requires |w| == 4
    ensures WordsReversed(w) == Reversed(w) && Reversed(Reversed(w)) == w
  {
    assert w[..4] == w && w[4..] == [];
    assert Reversed(w) + [] == Reversed(w);
  }

  /** IPv4 addresses and ports survive on hosts of either byte order. */
  lemma RoundTripIPv4(e: Endpoint, littleEndian: bool)
    requires |e.ip| == 4 && e.port < 0x1_0000
    ensures Decoded(INET, KernelText(e, littleEndian), littleEndian) == Some(e)
  {
    OneWord(e.ip);
    DecodedKernelText(INET, e, littleEndian);
  }

  /** IPv6 addresses survive exactly on little-endian hosts, or when every word reads the same both ways. */
  lemma RoundTripIPv6(e: Endpoint, littleEndian: bool)
    requires |e.ip| == 16 && e.port < 0x1_0000
    ensures Decoded(INET6, KernelText(e, littleEndian), littleEndian) == Some(e)
       <==> (littleEndian || WordsReversed(e.ip) == e.ip)
  {
    DecodedKernelText(INET6, e, littleEndian);
    WordsReversedTwice(e.ip);
  }
}
