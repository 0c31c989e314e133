/** The base 64 encoding of section 4 of RFC 4648 (alphabet A-Z, a-z, 0-9,
    '+', '/', with '=' padding), as `Data(base64Encoded:)` decodes it for a
    data-scheme URL. The encoder is here to state the round trip. */
module Base64 {
  import opened Foundation

  type sextet = v: int | 0 <= v < 64

  /** The character of a 6-bit value (Table 1 of the RFC). */
  function CharOf(v: sextet): char
  {
    if v < 26 then ('A' as int + v) as char
    else if v < 52 then ('a' as int + (v - 26)) as char
    else if v < 62 then ('0' as int + (v - 52)) as char
    else if v == 62 then '+'
    else '/'
  }

  /** The 6-bit value of an alphabet character; None for any other
      character, the pad '=' included. */
  function ValueOf(c: char): (r: Option<sextet>)
    ensures r.Some? ==> CharOf(r.value) == c
    ensures c == '=' ==> r.None?
  {
    if 'A' <= c <= 'Z' then Some(c as int - 'A' as int)
    else if 'a' <= c <= 'z' then Some(c as int - 'a' as int + 26)
    else if '0' <= c <= '9' then Some(c as int - '0' as int + 52)
    else if c == '+' then Some(62)
    else if c == '/' then Some(63)
    else None
  }

  lemma ValueOfCharOf(v: sextet)
    ensures ValueOf(CharOf(v)) == Some(v)
  {
  }

  // ---------------------------------------------------------------------
  // Decoding
  // ---------------------------------------------------------------------

  /** Three bytes from four 6-bit values. */
  function Bytes3(v0: sextet, v1: sextet, v2: sextet, v3: sextet): seq<byte>
  {
    [v0 * 4 + v1 / 16, (v1 % 16) * 16 + v2 / 4, (v2 % 4) * 64 + v3]
  }

  /** A group of four alphabet characters. */
  function DecodeFull(q: string): (r: Option<seq<byte>>)
    requires |q| == 4
    ensures r.Some? ==> |r.value| == 3
  {
    match (ValueOf(q[0]), ValueOf(q[1]), ValueOf(q[2]), ValueOf(q[3]))
    case (Some(v0), Some(v1), Some(v2), Some(v3)) => Some(Bytes3(v0, v1, v2, v3))
    case _ => None
  }

  /** The final group, which may end in one or two pad characters. */
  function DecodeFinal(q: string): (r: Option<seq<byte>>)
    requires |q| == 4
    ensures r.Some? ==> 1 <= |r.value| <= 3
  {
    if q[2] == '=' && q[3] == '=' then
      match (ValueOf(q[0]), ValueOf(q[1]))
      case (Some(v0), Some(v1)) => Some(Bytes3(v0, v1, 0, 0)[..1])
      case _ => None
    else if q[3] == '=' then
      match (ValueOf(q[0]), ValueOf(q[1]), ValueOf(q[2]))
      case (Some(v0), Some(v1), Some(v2)) => Some(Bytes3(v0, v1, v2, 0)[..2])
      case _ => None
    else DecodeFull(q)
  }

  /** `Data(base64Encoded:)`: None unless the text is a whole number of
      four-character groups of the alphabet, padding allowed only at the end. */
  function Decode(s: string): (r: Option<seq<byte>>)
    ensures r.Some? ==> |s| % 4 == 0
    ensures r.Some? ==> 4 * |r.value| <= 3 * |s|
    decreases |s|
  {
    if |s| == 0 then Some([])
    else if |s| < 4 then None
    else if |s| == 4 then DecodeFinal(s)
    else
      match DecodeFull(s[..4])
      case None => None
      case Some(g) =>
        match Decode(s[4..])
        case None => None
        case Some(rest) =>
          WholeGroups(|s|);
          Some(g + rest)
  }

  /** One more group of four keeps a length a multiple of four. */
  lemma WholeGroups(n: int)
    requires n >= 4 && (n - 4) % 4 == 0
    ensures n % 4 == 0
  {
    var q := (n - 4) / 4;
    assert n - 4 == 4 * q;
    DivModUnique(n, 4, q + 1, 0);
  }

  // ---------------------------------------------------------------------
  // Encoding and the round trip
  // ---------------------------------------------------------------------

  /** The four characters of three bytes. */
  function EncodeGroup(b0: byte, b1: byte, b2: byte): (q: string)
    ensures |q| == 4
  {
    [CharOf(b0 / 4), CharOf((b0 % 4) * 16 + b1 / 16), CharOf((b1 % 16) * 4 + b2 / 64), CharOf(b2 % 64)]
  }

  /** The final group of two bytes, with one pad character. */
  function EncodeFinal2(b0: byte, b1: byte): (q: string)
    ensures |q| == 4
  {
    [CharOf(b0 / 4), CharOf((b0 % 4) * 16 + b1 / 16), CharOf((b1 % 16) * 4), '=']
  }

  /** The final group of one byte, with two pad characters. */
  function EncodeFinal1(b0: byte): (q: string)
    ensures |q| == 4
  {
    [CharOf(b0 / 4), CharOf((b0 % 4) * 16), '=', '=']
  }

  function Encode(b: seq<byte>): (s: string)
    ensures |s| % 4 == 0
    ensures |s| == 0 <==> |b| == 0
    decreases |b|
  {
    if |b| == 0 then ""
    else if |b| == 1 then EncodeFinal1(b[0])
    else if |b| == 2 then EncodeFinal2(b[0], b[1])
    else EncodeGroup(b[0], b[1], b[2]) + Encode(b[3..])
  }

  lemma GroupRoundTrip(b0: byte, b1: byte, b2: byte)
    ensures Bytes3(b0 / 4, (b0 % 4) * 16 + b1 / 16, (b1 % 16) * 4 + b2 / 64, b2 % 64) == [b0, b1, b2]
  {
    var v1 := (b0 % 4) * 16 + b1 / 16;
    var v2 := (b1 % 16) * 4 + b2 / 64;
    DivModUnique(v1, 16, b0 % 4, b1 / 16);
    DivModUnique(v2, 4, b1 % 16, b2 / 64);
    DivModUnique(b0, 4, b0 / 4, b0 % 4);
    DivModUnique(b1, 16, b1 / 16, b1 % 16);
    DivModUnique(b2, 64, b2 / 64, b2 % 64);
  }

  lemma EncodeGroupDecodes(b0: byte, b1: byte, b2: byte)
    ensures DecodeFull(EncodeGroup(b0, b1, b2)) == Some([b0, b1, b2])
    ensures EncodeGroup(b0, b1, b2)[3] != '='
  {
    var v0, v1, v2, v3 := b0 / 4, (b0 % 4) * 16 + b1 / 16, (b1 % 16) * 4 + b2 / 64, b2 % 64;
    ValueOfCharOf(v0);
    ValueOfCharOf(v1);
    ValueOfCharOf(v2);
    ValueOfCharOf(v3);
    GroupRoundTrip(b0, b1, b2);
  }

  lemma EncodeFinal2Decodes(b0: byte, b1: byte)
    ensures DecodeFinal(EncodeFinal2(b0, b1)) == Some([b0, b1])
  {
    var v0, v1, v2 := b0 / 4, (b0 % 4) * 16 + b1 / 16, (b1 % 16) * 4;
    ValueOfCharOf(v0);
    ValueOfCharOf(v1);
    ValueOfCharOf(v2);
    GroupRoundTrip(b0, b1, 0);
    assert Bytes3(v0, v1, v2, 0)[..2] == [b0, b1];
  }

  lemma EncodeFinal1Decodes(b0: byte)
    ensures DecodeFinal(EncodeFinal1(b0)) == Some([b0])
  {
    var v0, v1 := b0 / 4, (b0 % 4) * 16;
    ValueOfCharOf(v0);
    ValueOfCharOf(v1);
    GroupRoundTrip(b0, 0, 0);
    assert Bytes3(v0, v1, 0, 0)[..1] == [b0];
  }

  /** A single group without padding decodes as a full group. */
  lemma DecodeSingleGroup(g: string)
    requires |g| == 4 && g[3] != '='
    ensures Decode(g) == DecodeFull(g)
  {
  }

  /** A full group followed by more groups decodes group by group. */
  lemma DecodeGroupThen(g: string, rest: string)
    requires |g| == 4 && DecodeFull(g).Some?
    requires |rest| > 0 && Decode(rest).Some?
    ensures Decode(g + rest) == Some(DecodeFull(g).value + Decode(rest).value)
  {
    var s := g + rest;
    assert s[..4] == g && s[4..] == rest;
  }

  /** Encoding three or more bytes starts with the group of the first three. */
  lemma EncodeFirstGroup(b: seq<byte>)
    requires |b| >= 3
    ensures Encode(b) == EncodeGroup(b[0], b[1], b[2]) + Encode(b[3..])
  {
  }

  /** A final group decodes by itself. */
  lemma DecodeLastGroup(q: string)
    requires |q| == 4
    ensures Decode(q) == DecodeFinal(q)
  {
  }

  lemma DecodeEncode1(b: seq<byte>)
    requires |b| == 1
    ensures Decode(Encode(b)) == Some(b)
  {
    var q := EncodeFinal1(b[0]);
    assert Encode(b) == q;
    DecodeLastGroup(q);
    EncodeFinal1Decodes(b[0]);
    assert [b[0]] == b;
  }

  lemma DecodeEncode2(b: seq<byte>)
    requires |b| == 2
    ensures Decode(Encode(b)) == Some(b)
  {
    var q := EncodeFinal2(b[0], b[1]);
    assert Encode(b) == q;
    DecodeLastGroup(q);
    EncodeFinal2Decodes(b[0], b[1]);
    assert [b[0], b[1]] == b;
  }

  lemma DecodeEncode3(b: seq<byte>)
    requires |b| == 3
    ensures Decode(Encode(b)) == Some(b)
  {
    EncodeFirstGroup(b);
    var g := EncodeGroup(b[0], b[1], b[2]);
    assert Encode(b[3..]) == "";
    assert Encode(b) == g;
    EncodeGroupDecodes(b[0], b[1], b[2]);
    DecodeSingleGroup(g);
    assert b == [b[0], b[1], b[2]];
  }

  /** The round trip extends from the bytes after the first three to the
      whole. */
  lemma DecodeEncodeStep(b: seq<byte>)
    requires |b| > 3
    requires Decode(Encode(b[3..])) == Some(b[3..])
    ensures Decode(Encode(b)) == Some(b)
  {
    EncodeFirstGroup(b);
    var g, rest := EncodeGroup(b[0], b[1], b[2]), Encode(b[3..]);
    EncodeGroupDecodes(b[0], b[1], b[2]);
    DecodeGroupThen(g, rest);
    SplitFirstThree(b);
  }

  lemma SplitFirstThree<T>(b: seq<T>)
    requires |b| >= 3
    ensures [b[0], b[1], b[2]] + b[3..] == b
  {
  }

  /** Decoding undoes encoding, for every byte string. */
  lemma {:induction false} DecodeEncode(b: seq<byte>)
    ensures Decode(Encode(b)) == Some(b)
    decreases |b|
  {
    if |b| == 1 {
      DecodeEncode1(b);
    } else if |b| == 2 {
      DecodeEncode2(b);
    } else if |b| == 3 {
      DecodeEncode3(b);
    } else if |b| > 3 {
      DecodeEncode(b[3..]);
      DecodeEncodeStep(b);
    }
  }
}
