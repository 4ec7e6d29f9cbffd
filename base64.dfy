/**
 * The base64 text encoding of section 4 of RFC 4648, as the transport uses it to carry
 * a message body inside the envelope: `Convert.ToBase64String` on the way out and
 * `Convert.FromBase64String` on the way in.
 */
module Base64 {
  import opened Wrappers

  type byte = b: int | 0 <= b < 256

  /** A 6-bit group: the value one alphabet character stands for. */
  type Sextet = v: int | 0 <= v < 64

  const Pad: char := '='

  /** The character of the base64 alphabet (RFC 4648, Table 1) for a 6-bit value. */
  function CharOf(v: Sextet): (c: char)
    ensures c != Pad
  {
    if v < 26 then ('A' as int + v) as char
    else if v < 52 then ('a' as int + (v - 26)) as char
    else if v < 62 then ('0' as int + (v - 52)) as char
    else if v == 62 then '+'
    else '/'
  }

  /** The 6-bit value of an alphabet character; None for any other character. */
  function ValueOf(c: char): (r: Option<Sextet>)
    ensures r.Some? ==> CharOf(r.value) == c
  {
    if 'A' <= c <= 'Z' then Some(c as int - 'A' as int)
    else if 'a' <= c <= 'z' then Some(c as int - 'a' as int + 26)
    else if '0' <= c <= '9' then Some(c as int - '0' as int + 52)
    else if c == '+' then Some(62)
    else if c == '/' then Some(63)
    else None
  }

  /** Every alphabet character is recognised again as the value it was made from. */
  lemma ValueOfCharOf(v: Sextet)
    ensures ValueOf(CharOf(v)) == Some(v)
  {
  }

  /** The characters `Convert.FromBase64String` skips wherever they occur. */
  predicate IsSkippedWhiteSpace(c: char) {
    c == ' ' || c == '\t' || c == '\r' || c == '\n'
  }

  /** A character that can occur in the output of Encode. */
  predicate IsEncodingChar(c: char) {
    c == Pad || ValueOf(c).Some?
  }

  /** Three bytes become four characters (RFC 4648, section 4). */
  function EncodeGroup(b0: byte, b1: byte, b2: byte): (s: string)
    ensures |s| == 4
    ensures forall c :: c in s ==> IsEncodingChar(c)
  {
    ValueOfCharOf(b0 / 4);
    ValueOfCharOf((b0 % 4) * 16 + b1 / 16);
    ValueOfCharOf((b1 % 16) * 4 + b2 / 64);
    ValueOfCharOf(b2 % 64);
    [CharOf(b0 / 4), CharOf((b0 % 4) * 16 + b1 / 16), CharOf((b1 % 16) * 4 + b2 / 64), CharOf(b2 % 64)]
  }

  /** A final single byte becomes two characters and two pad characters. */
  function EncodeLastOne(b0: byte): (s: string)
    ensures |s| == 4
    ensures forall c :: c in s ==> IsEncodingChar(c)
  {
    ValueOfCharOf(b0 / 4);
    ValueOfCharOf((b0 % 4) * 16);
    [CharOf(b0 / 4), CharOf((b0 % 4) * 16), Pad, Pad]
  }

  /** Two final bytes become three characters and one pad character. */
  function EncodeLastTwo(b0: byte, b1: byte): (s: string)
    ensures |s| == 4
    ensures forall c :: c in s ==> IsEncodingChar(c)
  {
    ValueOfCharOf(b0 / 4);
    ValueOfCharOf((b0 % 4) * 16 + b1 / 16);
    ValueOfCharOf((b1 % 16) * 4);
    [CharOf(b0 / 4), CharOf((b0 % 4) * 16 + b1 / 16), CharOf((b1 % 16) * 4), Pad]
  }

  /** `Convert.ToBase64String`: the padded base64 text of a byte sequence, with no line breaks. */
  function Encode(bytes: seq<byte>): (text: string)
    ensures |text| == 0 <==> |bytes| == 0
    ensures forall c :: c in text ==> IsEncodingChar(c)
    decreases |bytes|
  {
    if |bytes| == 0 then ""
    else if |bytes| == 1 then EncodeLastOne(bytes[0])
    else if |bytes| == 2 then EncodeLastTwo(bytes[0], bytes[1])
    else EncodeGroup(bytes[0], bytes[1], bytes[2]) + Encode(bytes[3..])
  }

  /** The first byte of a group: six bits of the first character, two of the second. */
  function FirstByte(v0: Sextet, v1: Sextet): byte {
    (v0 as int) * 4 + (v1 as int) / 16
  }

  /** The second byte of a group: four bits of the second character, four of the third. */
  function SecondByte(v1: Sextet, v2: Sextet): byte {
    ((v1 as int) % 16) * 16 + (v2 as int) / 4
  }

  /** The third byte of a group: two bits of the third character, six of the fourth. */
  function ThirdByte(v2: Sextet, v3: Sextet): byte {
    ((v2 as int) % 4) * 64 + v3 as int
  }

  /** Four alphabet characters become three bytes; None when one of them is not in the alphabet. */
  function DecodeGroup(q: string): (r: Option<seq<byte>>)
    requires |q| == 4
    ensures r.Some? ==> |r.value| == 3
  {
    match (ValueOf(q[0]), ValueOf(q[1]), ValueOf(q[2]), ValueOf(q[3]))
    case (Some(v0), Some(v1), Some(v2), Some(v3)) =>
      Some([FirstByte(v0, v1), SecondByte(v1, v2), ThirdByte(v2, v3)])
    case _ => None
  }

  /**
   * The last group of the text, which may end in one or two pad characters. The low bits
   * of the last alphabet character that do not belong to a byte are ignored.
   */
  function DecodeLastGroup(q: string): (r: Option<seq<byte>>)
    requires |q| == 4
    ensures r.Some? ==> 1 <= |r.value| <= 3
  {
    if q[2] == Pad && q[3] == Pad then
      match (ValueOf(q[0]), ValueOf(q[1]))
      case (Some(v0), Some(v1)) => Some([FirstByte(v0, v1)])
      case _ => None
    else if q[3] == Pad then
      match (ValueOf(q[0]), ValueOf(q[1]), ValueOf(q[2]))
      case (Some(v0), Some(v1), Some(v2)) => Some([FirstByte(v0, v1), SecondByte(v1, v2)])
      case _ => None
    else
      DecodeGroup(q)
  }

  /**
   * Decoding of text without white space: groups of four characters, padding only in the
   * last group; a text whose length is not a multiple of four has a short last group and fails.
   */
  function DecodeGroups(text: string): (r: Option<seq<byte>>)
    decreases |text|
  {
    if |text| == 0 then Some([])
    else if |text| < 4 then None
    else if |text| == 4 then DecodeLastGroup(text)
    else
      match DecodeGroup(text[..4])
      case None => None
      case Some(first) =>
        match DecodeGroups(text[4..])
        case None => None
        case Some(rest) => Some(first + rest)
  }

  /** The text with the characters `Convert.FromBase64String` ignores taken out. */
  function RemoveWhiteSpace(text: string): (r: string)
    ensures forall c :: c in r ==> c in text && !IsSkippedWhiteSpace(c)
    decreases |text|
  {
    if text == [] then []
    else (if IsSkippedWhiteSpace(text[0]) then [] else [text[0]]) + RemoveWhiteSpace(text[1..])
  }

  /**
   * `Convert.FromBase64String`: the bytes a base64 text stands for, or None where .NET
   * raises a FormatException (a length that is not a multiple of four, a character outside
   * the alphabet, padding anywhere but at the end).
   */
  function Decode(text: string): (r: Option<seq<byte>>)
  {
    DecodeGroups(RemoveWhiteSpace(text))
  }

  lemma {:induction false} RemoveWhiteSpaceKeeps(text: string)
    requires forall c :: c in text ==> !IsSkippedWhiteSpace(c)
    ensures RemoveWhiteSpace(text) == text
    decreases |text|
  {
    if text != [] {
      assert text[0] in text;
      forall c | c in text[1..] ensures !IsSkippedWhiteSpace(c) {
        assert c in text;
      }
      RemoveWhiteSpaceKeeps(text[1..]);
      assert [text[0]] + text[1..] == text;
    }
  }

  lemma DecodeGroupOfEncodeGroup(b0: byte, b1: byte, b2: byte)
    ensures DecodeGroup(EncodeGroup(b0, b1, b2)) == Some([b0, b1, b2])
  {
    var v0: Sextet, v1: Sextet, v2: Sextet, v3: Sextet := b0 / 4, (b0 % 4) * 16 + b1 / 16, (b1 % 16) * 4 + b2 / 64, b2 % 64;
    ValueOfCharOf(v0);
    ValueOfCharOf(v1);
    ValueOfCharOf(v2);
    ValueOfCharOf(v3);
    FirstByteOf(b0, b1);
    SecondByteOf(b0, b1, b2);
    ThirdByteOf(b1, b2);
    assert EncodeGroup(b0, b1, b2) == [CharOf(v0), CharOf(v1), CharOf(v2), CharOf(v3)];
  }

  lemma FirstByteOf(b0: byte, b1: byte)
    ensures FirstByte(b0 / 4, (b0 % 4) * 16 + b1 / 16) == b0
  {
    assert ((b0 % 4) * 16 + b1 / 16) / 16 == b0 % 4;
  }

  lemma SecondByteOf(b0: byte, b1: byte, b2: byte)
    ensures SecondByte((b0 % 4) * 16 + b1 / 16, (b1 % 16) * 4 + b2 / 64) == b1
  {
    assert ((b0 % 4) * 16 + b1 / 16) % 16 == b1 / 16;
    assert ((b1 % 16) * 4 + b2 / 64) / 4 == b1 % 16;
  }

  lemma ThirdByteOf(b1: byte, b2: byte)
    ensures ThirdByte((b1 % 16) * 4 + b2 / 64, b2 % 64) == b2
  {
    assert ((b1 % 16) * 4 + b2 / 64) % 4 == b2 / 64;
  }

  lemma DecodeLastOfEncodeLastOne(b0: byte)
    ensures DecodeLastGroup(EncodeLastOne(b0)) == Some([b0])
  {
    ValueOfCharOf(b0 / 4);
    ValueOfCharOf((b0 % 4) * 16);
  }

  lemma DecodeLastOfEncodeLastTwo(b0: byte, b1: byte)
    ensures DecodeLastGroup(EncodeLastTwo(b0, b1)) == Some([b0, b1])
  {
    var v1: Sextet := (b0 % 4) * 16 + b1 / 16;
    var v2: Sextet := (b1 % 16) * 4;
    ValueOfCharOf(b0 / 4);
    ValueOfCharOf(v1);
    ValueOfCharOf(v2);
    assert FirstByte(b0 / 4, v1) == b0;
    assert SecondByte(v1, v2) == b1;
    assert EncodeLastTwo(b0, b1)[2] == CharOf(v2) != Pad;
  }

  lemma DecodeGroupsOfEncodeThree(bytes: seq<byte>)
    requires |bytes| == 3
    ensures DecodeGroups(Encode(bytes)) == Some(bytes)
  {
    var head := EncodeGroup(bytes[0], bytes[1], bytes[2]);
    assert Encode(bytes) == head + Encode(bytes[3..]);
    assert Encode(bytes) == head;
    DecodeGroupOfEncodeGroup(bytes[0], bytes[1], bytes[2]);
    assert head[3] != Pad;
    assert bytes == [bytes[0], bytes[1], bytes[2]];
  }

  lemma {:induction false} DecodeGroupsOfEncode(bytes: seq<byte>)
    ensures DecodeGroups(Encode(bytes)) == Some(bytes)
    decreases |bytes|
  {
    if |bytes| == 1 {
      DecodeLastOfEncodeLastOne(bytes[0]);
      assert bytes == [bytes[0]];
    } else if |bytes| == 2 {
      DecodeLastOfEncodeLastTwo(bytes[0], bytes[1]);
      assert bytes == [bytes[0], bytes[1]];
    } else if |bytes| == 3 {
      DecodeGroupsOfEncodeThree(bytes);
    } else if |bytes| > 3 {
      DecodeGroupsOfEncode(bytes[3..]);
      DecodeGroupsOfEncodeLonger(bytes);
    }
  }

  lemma DecodeGroupsOfEncodeLonger(bytes: seq<byte>)
    requires |bytes| > 3
    requires DecodeGroups(Encode(bytes[3..])) == Some(bytes[3..])
    ensures DecodeGroups(Encode(bytes)) == Some(bytes)
  {
    var head := EncodeGroup(bytes[0], bytes[1], bytes[2]);
    var tail := Encode(bytes[3..]);
    EncodeLonger(bytes);
    DecodeGroupOfEncodeGroup(bytes[0], bytes[1], bytes[2]);
    DecodeGroupsAppend(head, tail, [bytes[0], bytes[1], bytes[2]], bytes[3..]);
    SplitAfterThree(bytes);
  }

  lemma SplitAfterThree(bytes: seq<byte>)
    requires |bytes| >= 3
    ensures bytes == [bytes[0], bytes[1], bytes[2]] + bytes[3..]
  {
    assert bytes[..3] == [bytes[0], bytes[1], bytes[2]];
    assert bytes == bytes[..3] + bytes[3..];
  }

  lemma EncodeLonger(bytes: seq<byte>)
    requires |bytes| > 3
    ensures Encode(bytes) == EncodeGroup(bytes[0], bytes[1], bytes[2]) + Encode(bytes[3..])
    ensures |Encode(bytes[3..])| > 0
  {
  }

  lemma DecodeGroupsAppend(head: string, tail: string, first: seq<byte>, rest: seq<byte>)
    requires |head| == 4 && |tail| > 0
    requires DecodeGroup(head) == Some(first)
    requires DecodeGroups(tail) == Some(rest)
    ensures DecodeGroups(head + tail) == Some(first + rest)
  {
    var text := head + tail;
    assert text[..4] == head;
    assert text[4..] == tail;
  }

  /** What `GetBody` encodes, `GetBodyBytes` decodes back to the same bytes, the empty body included. */
  lemma DecodeEncode(bytes: seq<byte>)
    ensures Decode(Encode(bytes)) == Some(bytes)
  {
    var text := Encode(bytes);
    forall c | c in text ensures !IsSkippedWhiteSpace(c) {
      assert IsEncodingChar(c);
    }
    RemoveWhiteSpaceKeeps(text);
    DecodeGroupsOfEncode(bytes);
  }
}
