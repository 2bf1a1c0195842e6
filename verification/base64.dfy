/** Base64 text encoding of byte strings, as section 4 of RFC 4648 defines it
    (standard alphabet, `=` padding), together with a decoder for the
    encoder's output. The serializer table turns a `bytes` value into this
    text. */
module Base64 {
  import opened Results

  /** One octet. */
  type byte = x: int | 0 <= x < 256

  /** One six-bit group, the index of a character of the alphabet. */
  type sextet = x: int | 0 <= x < 64

  /** The character for a sextet in the alphabet of Table 1 of RFC 4648:
      A-Z, a-z, 0-9, '+', '/'. */
  function CharOf(i: sextet): (c: char)
    ensures c != '='
  {
    if i < 26 then ('A' as int + i) as char
    else if i < 52 then ('a' as int + (i - 26)) as char
    else if i < 62 then ('0' as int + (i - 52)) as char
    else if i == 62 then '+'
    else '/'
  }

  /** The sextet a character stands for, or None for a character outside
      the alphabet (the pad character '=' included). */
  function IndexOf(c: char): (r: Option<sextet>)
    ensures r.Some? ==> CharOf(r.value) == c
  {
    if 'A' <= c <= 'Z' then Some(c as int - 'A' as int)
    else if 'a' <= c <= 'z' then Some(c as int - 'a' as int + 26)
    else if '0' <= c <= '9' then Some(c as int - '0' as int + 52)
    else if c == '+' then Some(62)
    else if c == '/' then Some(63)
    else None
  }

  /** Every character of an encoding: an alphabet character or the pad. */
  predicate IsBase64Char(c: char) {
    IndexOf(c).Some? || c == '='
  }

  /** The four characters of a full three-byte group. */
  function EncodeGroup(b0: byte, b1: byte, b2: byte): string {
    [CharOf(b0 / 4), CharOf((b0 % 4) * 16 + b1 / 16), CharOf((b1 % 16) * 4 + b2 / 64), CharOf(b2 % 64)]
  }

  /** The standard Base64 encoding of `bs`: every three bytes become four
      characters; a final group of one or two bytes is padded with '='. */
  function Encode(bs: seq<byte>): (s: string)
    ensures |s| == 4 * ((|bs| + 2) / 3)
    ensures forall i :: 0 <= i < |s| ==> IsBase64Char(s[i])
    decreases |bs|
  {
    if |bs| == 0 then []
    else if |bs| == 1 then [CharOf(bs[0] / 4), CharOf((bs[0] % 4) * 16), '=', '=']
    else if |bs| == 2 then [CharOf(bs[0] / 4), CharOf((bs[0] % 4) * 16 + bs[1] / 16), CharOf((bs[1] % 16) * 4), '=']
    else EncodeGroup(bs[0], bs[1], bs[2]) + Encode(bs[3..])
  }

  /** The three bytes four sextets carry. */
  function DecodeGroup(c0: sextet, c1: sextet, c2: sextet, c3: sextet): (r: seq<byte>)
    ensures |r| == 3
  {
    [c0 * 4 + c1 / 16, (c1 % 16) * 16 + c2 / 4, (c2 % 4) * 64 + c3]
  }

  /** The three bytes of four alphabet characters; None if one of them is
      outside the alphabet. */
  function DecodeQuad(c0: char, c1: char, c2: char, c3: char): (r: Option<seq<byte>>)
    ensures r.Some? ==> |r.value| == 3
  {
    match (IndexOf(c0), IndexOf(c1), IndexOf(c2), IndexOf(c3))
    case (Some(x0), Some(x1), Some(x2), Some(x3)) => Some(DecodeGroup(x0, x1, x2, x3))
    case _ => None
  }

  /** The last four characters: a full group, or one or two bytes followed
      by pad characters standing for the missing ones. */
  function DecodeLast(c0: char, c1: char, c2: char, c3: char): (r: Option<seq<byte>>)
  {
    if c2 == '=' && c3 == '=' then
      match DecodeQuad(c0, c1, 'A', 'A')
      case Some(g) => Some(g[..1])
      case None => None
    else if c3 == '=' then
      match DecodeQuad(c0, c1, c2, 'A')
      case Some(g) => Some(g[..2])
      case None => None
    else DecodeQuad(c0, c1, c2, c3)
  }

  /** Decodes text laid out as `Encode` lays it out: groups of four alphabet
      characters, the last group possibly ending in one or two pad
      characters. Anything else is None. */
  function Decode(s: string): (r: Option<seq<byte>>)
    decreases |s|
  {
    if |s| == 0 then Some([])
    else if |s| < 4 then None
    else if |s| == 4 then DecodeLast(s[0], s[1], s[2], s[3])
    else
      match (DecodeQuad(s[0], s[1], s[2], s[3]), Decode(s[4..]))
      case (Some(g), Some(rest)) => Some(g + rest)
      case _ => None
  }

  lemma CharRoundTrip(i: sextet)
    ensures IndexOf(CharOf(i)) == Some(i)
  {
  }

  /** The bytes of a group are recovered from the sextets the encoder cuts
      them into. */
  lemma GroupRoundTrip(b0: byte, b1: byte, b2: byte)
    ensures DecodeGroup(b0 / 4, (b0 % 4) * 16 + b1 / 16, (b1 % 16) * 4 + b2 / 64, b2 % 64) == [b0, b1, b2]
  {
  }

  /** A full group decodes back to its three bytes. */
  lemma DecodeQuadGroup(b0: byte, b1: byte, b2: byte)
    ensures var g := EncodeGroup(b0, b1, b2); DecodeQuad(g[0], g[1], g[2], g[3]) == Some([b0, b1, b2])
  {
    CharRoundTrip(b0 / 4);
    CharRoundTrip((b0 % 4) * 16 + b1 / 16);
    CharRoundTrip((b1 % 16) * 4 + b2 / 64);
    CharRoundTrip(b2 % 64);
    GroupRoundTrip(b0, b1, b2);
  }

  /** A final group of one byte decodes back to that byte. */
  lemma DecodeEncodeOne(b0: byte)
    ensures Decode(Encode([b0])) == Some([b0])
  {
    var s := Encode([b0]);
    var g := EncodeGroup(b0, 0, 0);
    DecodeQuadGroup(b0, 0, 0);
    assert g == [s[0], s[1], 'A', 'A'];
    assert s[2] == '=' && s[3] == '=';
    assert DecodeQuad(s[0], s[1], 'A', 'A') == Some([b0, 0, 0]);
    assert [b0, 0, 0][..1] == [b0];
    assert Decode(s) == DecodeLast(s[0], s[1], s[2], s[3]);
  }

  /** A final group of two bytes decodes back to those bytes. */
  lemma DecodeEncodeTwo(b0: byte, b1: byte)
    ensures Decode(Encode([b0, b1])) == Some([b0, b1])
  {
    var s := Encode([b0, b1]);
    var g := EncodeGroup(b0, b1, 0);
    DecodeQuadGroup(b0, b1, 0);
    assert g == [s[0], s[1], s[2], 'A'];
    assert s[2] != '=' && s[3] == '=';
    assert DecodeQuad(s[0], s[1], s[2], 'A') == Some([b0, b1, 0]);
    assert [b0, b1, 0][..2] == [b0, b1];
    assert Decode(s) == DecodeLast(s[0], s[1], s[2], s[3]);
  }

  /** A group without padding followed by decodable text decodes to the
      group's bytes followed by the text's. */
  lemma DecodeGroupThen(q: string, rest: string, bytes: seq<byte>, tail: seq<byte>)
    requires |q| == 4 && q[2] != '=' && q[3] != '='
    requires DecodeQuad(q[0], q[1], q[2], q[3]) == Some(bytes)
    requires Decode(rest) == Some(tail)
    ensures Decode(q + rest) == Some(bytes + tail)
  {
    var s := q + rest;
    if |rest| == 0 {
      assert s == q;
      assert tail == [];
      assert bytes + tail == bytes;
    } else {
      assert s[4..] == rest;
      assert s[0] == q[0] && s[1] == q[1] && s[2] == q[2] && s[3] == q[3];
    }
  }

  /** Decoding inverts encoding, so no two byte strings share an encoding. */
  lemma {:induction false} DecodeEncode(bs: seq<byte>)
    ensures Decode(Encode(bs)) == Some(bs)
    decreases |bs|
  {
    if |bs| == 0 {
    } else if |bs| == 1 {
      DecodeEncodeOne(bs[0]);
      assert bs == [bs[0]];
    } else if |bs| == 2 {
      DecodeEncodeTwo(bs[0], bs[1]);
      assert bs == [bs[0], bs[1]];
    } else {
      DecodeEncode(bs[3..]);
      DecodeEncodeGroup(bs);
    }
  }

  /** The step of the round trip: a leading full group decodes back in front
      of whatever the rest decodes back to. */
  lemma DecodeEncodeGroup(bs: seq<byte>)
    requires |bs| >= 3 && Decode(Encode(bs[3..])) == Some(bs[3..])
    ensures Decode(Encode(bs)) == Some(bs)
  {
    var g := EncodeGroup(bs[0], bs[1], bs[2]);
    var rest := Encode(bs[3..]);
    assert Encode(bs) == g + rest;
    assert g[2] != '=' && g[3] != '=';
    DecodeQuadGroup(bs[0], bs[1], bs[2]);
    DecodeGroupThen(g, rest, [bs[0], bs[1], bs[2]], bs[3..]);
    SplitGroup(bs);
  }

  lemma SplitGroup(bs: seq<byte>)
    requires |bs| >= 3
    ensures [bs[0], bs[1], bs[2]] + bs[3..] == bs
  {
    assert [bs[0], bs[1], bs[2]] == bs[..3];
  }

  lemma EncodeExample()
    ensures Encode([97, 98]) == "YWI="
  {
  }
}
