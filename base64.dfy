/**
 * Convert.ToBase64String: the base 64 encoding of section 4 of RFC 4648
 * (alphabet A-Z a-z 0-9 + /, '=' padding to a multiple of four characters),
 * with a canonical decoder as its partner.
 */
module Base64 {

  import opened Wrappers

  type byte = x: int | 0 <= x < 256
  type sextet = x: int | 0 <= x < 64

  /** The character for a 6-bit value (Table 1 of RFC 4648). */
  function IndexChar(i: sextet): (c: char)
    ensures c != '='
  {
    if i < 26 then ('A' as int + i) as char
    else if i < 52 then ('a' as int + i - 26) as char
    else if i < 62 then ('0' as int + i - 52) as char
    else if i == 62 then '+'
    else '/'
  }

  /** The 6-bit value of an alphabet character; None for anything else ('=' included). */
  function CharIndex(c: char): Option<sextet>
  {
    if 'A' <= c <= 'Z' then Some(c as int - 'A' as int)
    else if 'a' <= c <= 'z' then Some(c as int - 'a' as int + 26)
    else if '0' <= c <= '9' then Some(c as int - '0' as int + 52)
    else if c == '+' then Some(62)
    else if c == '/' then Some(63)
    else None
  }

  lemma CharIndexOfIndexChar(i: sextet)
    ensures CharIndex(IndexChar(i)) == Some(i)
  {
  }

  lemma IndexCharOfCharIndex(c: char)
    requires CharIndex(c).Some?
    ensures IndexChar(CharIndex(c).value) == c
  {
  }

  /** Three octets become four characters. */
  function EncodeGroup(a: byte, b: byte, c: byte): string
  {
    [IndexChar(a / 4), IndexChar((a % 4) * 16 + b / 16), IndexChar((b % 16) * 4 + c / 64), IndexChar(c % 64)]
  }

  /** A final single octet: two characters and "==". */
  function EncodeOne(a: byte): string
  {
    [IndexChar(a / 4), IndexChar((a % 4) * 16), '=', '=']
  }

  /** A final pair of octets: three characters and "=". */
  function EncodeTwo(a: byte, b: byte): string
  {
    [IndexChar(a / 4), IndexChar((a % 4) * 16 + b / 16), IndexChar((b % 16) * 4), '=']
  }

  function Encode(data: seq<byte>): (r: string)
    ensures |r| == (|data| + 2) / 3 * 4
    decreases |data|
  {
    if |data| == 0 then ""
    else if |data| == 1 then EncodeOne(data[0])
    else if |data| == 2 then EncodeTwo(data[0], data[1])
    else EncodeGroup(data[0], data[1], data[2]) + Encode(data[3..])
  }

  /** Four alphabet characters back to three octets. */
  function DecodeGroup(q: string): Option<seq<byte>>
    requires |q| == 4
  {
    var i0, i1, i2, i3 := CharIndex(q[0]), CharIndex(q[1]), CharIndex(q[2]), CharIndex(q[3]);
    if i0.None? || i1.None? || i2.None? || i3.None? then None
    else Some([i0.value * 4 + i1.value / 16, (i1.value % 16) * 16 + i2.value / 4, (i2.value % 4) * 64 + i3.value])
  }

  /**
   * The last quantum, which may carry padding. Pad bits that are not zero
   * are rejected (section 3.5 of RFC 4648 allows a decoder to do so), which
   * makes the encoding of every accepted text unique.
   */
  function DecodeLast(q: string): Option<seq<byte>>
    requires |q| == 4
  {
    if q[2] == '=' && q[3] == '=' then
      var i0, i1 := CharIndex(q[0]), CharIndex(q[1]);
      if i0.None? || i1.None? || i1.value % 16 != 0 then None
      else Some([i0.value * 4 + i1.value / 16])
    else if q[3] == '=' then
      var i0, i1, i2 := CharIndex(q[0]), CharIndex(q[1]), CharIndex(q[2]);
      if i0.None? || i1.None? || i2.None? || i2.value % 4 != 0 then None
      else Some([i0.value * 4 + i1.value / 16, (i1.value % 16) * 16 + i2.value / 4])
    else DecodeGroup(q)
  }

  function Decode(s: string): Option<seq<byte>>
    decreases |s|
  {
    if s == "" then Some([])
    else if |s| < 4 then None
    else if |s| == 4 then DecodeLast(s)
    else
      match DecodeGroup(s[..4])
      case None => None
      case Some(head) =>
        match Decode(s[4..])
        case None => None
        case Some(tail) => Some(head + tail)
  }

  lemma GroupRoundTrip(a: byte, b: byte, c: byte)
    ensures DecodeGroup(EncodeGroup(a, b, c)) == Some([a, b, c])
  {
    var q := EncodeGroup(a, b, c);
    CharIndexOfIndexChar(a / 4);
    CharIndexOfIndexChar((a % 4) * 16 + b / 16);
    CharIndexOfIndexChar((b % 16) * 4 + c / 64);
    CharIndexOfIndexChar(c % 64);
    assert ((a % 4) * 16 + b / 16) / 16 == a % 4;
    assert ((a % 4) * 16 + b / 16) % 16 == b / 16;
    assert ((b % 16) * 4 + c / 64) / 4 == b % 16;
    assert ((b % 16) * 4 + c / 64) % 4 == c / 64;
  }

  lemma OneRoundTrip(a: byte)
    ensures DecodeLast(EncodeOne(a)) == Some([a])
  {
    CharIndexOfIndexChar(a / 4);
    CharIndexOfIndexChar((a % 4) * 16);
    assert ((a % 4) * 16) / 16 == a % 4;
    assert ((a % 4) * 16) % 16 == 0;
  }

  lemma TwoRoundTrip(a: byte, b: byte)
    ensures DecodeLast(EncodeTwo(a, b)) == Some([a, b])
  {
    CharIndexOfIndexChar(a / 4);
    CharIndexOfIndexChar((a % 4) * 16 + b / 16);
    CharIndexOfIndexChar((b % 16) * 4);
    assert ((a % 4) * 16 + b / 16) / 16 == a % 4;
    assert ((a % 4) * 16 + b / 16) % 16 == b / 16;
    assert ((b % 16) * 4) / 4 == b % 16;
    assert ((b % 16) * 4) % 4 == 0;
  }

  /** Decoding an encoding gives back the octets. */
  lemma {:induction false} DecodeEncode(data: seq<byte>)
    ensures Decode(Encode(data)) == Some(data)
    decreases |data|
  {
    if |data| == 1 {
      OneRoundTrip(data[0]);
      assert data == [data[0]];
    } else if |data| == 2 {
      TwoRoundTrip(data[0], data[1]);
      assert data == [data[0], data[1]];
    } else if |data| == 3 {
      LastGroupRoundTrip(data[0], data[1], data[2]);
      assert data == [data[0], data[1], data[2]];
    } else if |data| > 3 {
      DecodeEncode(data[3..]);
      DecodeEncodeStep(data);
    }
  }

  lemma LastGroupRoundTrip(a: byte, b: byte, c: byte)
    ensures Decode(EncodeGroup(a, b, c)) == Some([a, b, c])
  {
    var g := EncodeGroup(a, b, c);
    GroupRoundTrip(a, b, c);
    assert g[3] != '=';
    assert DecodeLast(g) == DecodeGroup(g);
  }

  lemma DecodeEncodeStep(data: seq<byte>)
    requires |data| > 3 && Decode(Encode(data[3..])) == Some(data[3..])
    ensures Decode(Encode(data)) == Some(data)
  {
    var rest := Encode(data[3..]);
    var g := EncodeGroup(data[0], data[1], data[2]);
    assert Encode(data) == g + rest;
    GroupRoundTrip(data[0], data[1], data[2]);
    DecodeAppend(g, rest, [data[0], data[1], data[2]], data[3..]);
    SplitThree(data);
  }

  lemma SplitThree<T>(s: seq<T>)
    requires |s| >= 3
    ensures s == [s[0], s[1], s[2]] + s[3..]
  {
  }

  /** A full group followed by a decodable, non-empty rest decodes to the group's octets and the rest's. */
  lemma DecodeAppend(g: string, rest: string, head: seq<byte>, tail: seq<byte>)
    requires |g| == 4 && |rest| > 0 && DecodeGroup(g) == Some(head) && Decode(rest) == Some(tail)
    ensures Decode(g + rest) == Some(head + tail)
  {
    var s := g + rest;
    assert s[..4] == g && s[4..] == rest;
  }

  lemma GroupCanonical(q: string)
    requires |q| == 4 && DecodeGroup(q).Some?
    ensures var d := DecodeGroup(q).value; |d| == 3 && EncodeGroup(d[0], d[1], d[2]) == q
  {
    var i0: int, i1: int, i2: int, i3: int := CharIndex(q[0]).value, CharIndex(q[1]).value, CharIndex(q[2]).value, CharIndex(q[3]).value;
    IndexCharOfCharIndex(q[0]);
    IndexCharOfCharIndex(q[1]);
    IndexCharOfCharIndex(q[2]);
    IndexCharOfCharIndex(q[3]);
    var a: int, b: int, c: int := i0 * 4 + i1 / 16, (i1 % 16) * 16 + i2 / 4, (i2 % 4) * 64 + i3;
    assert a / 4 == i0 && a % 4 == i1 / 16;
    assert b / 16 == i1 % 16 && b % 16 == i2 / 4;
    assert c / 64 == i2 % 4 && c % 64 == i3;
    assert (a % 4) * 16 + b / 16 == i1;
    assert (b % 16) * 4 + c / 64 == i2;
    assert DecodeGroup(q).value == [a, b, c];
    assert EncodeGroup(a, b, c) == [IndexChar(i0), IndexChar(i1), IndexChar(i2), IndexChar(i3)];
    assert q == [q[0], q[1], q[2], q[3]];
  }

  /** Every text the decoder accepts is the encoding of what it decodes to. */
  lemma {:induction false} EncodeDecode(s: string)
    requires Decode(s).Some?
    ensures Encode(Decode(s).value) == s
    decreases |s|
  {
    if |s| == 4 {
      LastCanonical(s);
    } else if |s| > 4 {
      EncodeDecode(s[4..]);
      EncodeDecodeStep(s);
    }
  }

  lemma LastCanonical(q: string)
    requires |q| == 4 && DecodeLast(q).Some?
    ensures Encode(DecodeLast(q).value) == q
  {
    if q[2] == '=' && q[3] == '=' {
      PaddedTwiceCanonical(q);
    } else if q[3] == '=' {
      PaddedOnceCanonical(q);
    } else {
      GroupCanonical(q);
      var d := DecodeGroup(q).value;
      assert Encode(d) == EncodeGroup(d[0], d[1], d[2]) + Encode(d[3..]);
    }
  }

  lemma PaddedTwiceCanonical(q: string)
    requires |q| == 4 && q[2] == '=' && q[3] == '=' && DecodeLast(q).Some?
    ensures Encode(DecodeLast(q).value) == q
  {
    var i0: int, i1: int := CharIndex(q[0]).value, CharIndex(q[1]).value;
    IndexCharOfCharIndex(q[0]);
    IndexCharOfCharIndex(q[1]);
    var a: int := i0 * 4 + i1 / 16;
    assert a / 4 == i0 && (a % 4) * 16 == i1;
    assert DecodeLast(q).value == [a];
    assert EncodeOne(a) == [q[0], q[1], '=', '='];
    assert q == [q[0], q[1], q[2], q[3]];
  }

  lemma PaddedOnceCanonical(q: string)
    requires |q| == 4 && !(q[2] == '=' && q[3] == '=') && q[3] == '=' && DecodeLast(q).Some?
    ensures Encode(DecodeLast(q).value) == q
  {
    var i0: int, i1: int, i2: int := CharIndex(q[0]).value, CharIndex(q[1]).value, CharIndex(q[2]).value;
    IndexCharOfCharIndex(q[0]);
    IndexCharOfCharIndex(q[1]);
    IndexCharOfCharIndex(q[2]);
    var a: int, b: int := i0 * 4 + i1 / 16, (i1 % 16) * 16 + i2 / 4;
    assert a / 4 == i0 && a % 4 == i1 / 16;
    assert b / 16 == i1 % 16 && (b % 16) * 4 == i2;
    assert (a % 4) * 16 + b / 16 == i1;
    assert DecodeLast(q).value == [a, b];
    assert EncodeTwo(a, b) == [q[0], q[1], q[2], '='];
    assert q == [q[0], q[1], q[2], q[3]];
  }

  lemma EncodeDecodeStep(s: string)
    requires |s| > 4 && Decode(s).Some?
    ensures Decode(s[4..]).Some? && DecodeGroup(s[..4]).Some?
    ensures Decode(s) == Some(DecodeGroup(s[..4]).value + Decode(s[4..]).value)
    ensures Encode(Decode(s[4..]).value) == s[4..] ==> Encode(Decode(s).value) == s
  {
    var head := DecodeGroup(s[..4]).value;
    var tail := Decode(s[4..]).value;
    GroupCanonical(s[..4]);
    EncodeAppend(head, tail);
    if Encode(tail) == s[4..] {
      SplitFour(s);
    }
  }

  /** Three octets in front encode as their group in front. */
  lemma EncodeAppend(head: seq<byte>, tail: seq<byte>)
    requires |head| == 3
    ensures Encode(head + tail) == EncodeGroup(head[0], head[1], head[2]) + Encode(tail)
  {
    var d := head + tail;
    assert d[3..] == tail;
  }

  lemma SplitFour<T>(s: seq<T>)
    requires |s| >= 4
    ensures s == s[..4] + s[4..]
  {
  }
}
