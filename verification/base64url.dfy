/** The URL- and filename-safe base64 alphabet of section 5 of RFC 4648 with
    '=' padding, as Go's base64.URLEncoding writes it: every three bytes
    become four characters, and a final group of one or two bytes becomes two
    or three characters followed by "==" or "=". */
module Base64Url {
  import opened Wrappers
  import Text

  /** A six-bit group. */
  type Sextet = x: int | 0 <= x < 64

  /** The character for a six-bit value: A-Z, a-z, 0-9, then '-' and '_'. */
  function Char(i: Sextet): (c: char)
    ensures c != '='
  {
    if i < 26 then ('A' as int + i) as char
    else if i < 52 then ('a' as int + (i - 26)) as char
    else if i < 62 then ('0' as int + (i - 52)) as char
    else if i == 62 then '-'
    else '_'
  }

  /** The six-bit value of an alphabet character. */
  function Index(c: char): (r: Option<Sextet>)
    ensures r.Some? ==> Char(r.value) == c
  {
    if 'A' <= c <= 'Z' then Some(c as int - 'A' as int)
    else if 'a' <= c <= 'z' then Some(c as int - 'a' as int + 26)
    else if '0' <= c <= '9' then Some(c as int - '0' as int + 52)
    else if c == '-' then Some(62)
    else if c == '_' then Some(63)
    else None
  }

  lemma IndexOfChar(i: Sextet)
    ensures Index(Char(i)) == Some(i)
  {
  }

  /** A character the encoding can produce. */
  predicate InAlphabet(c: char)
  {
    ('A' <= c <= 'Z') || ('a' <= c <= 'z') || ('0' <= c <= '9') || c == '-' || c == '_' || c == '='
  }

  /** Three bytes: the 24 bits cut into four six-bit values, high bits first. */
  function Group3(a: Text.Byte, b: Text.Byte, c: Text.Byte): (s: string)
    ensures |s| == 4 && '=' !in s
  {
    [Char(a / 4), Char((a % 4) * 16 + b / 16), Char((b % 16) * 4 + c / 64), Char(c % 64)]
  }

  /** The last two bytes: three characters and one '='. */
  function Group2(a: Text.Byte, b: Text.Byte): (s: string)
    ensures |s| == 4 && s[3] == '=' && '=' !in s[..3]
  {
    [Char(a / 4), Char((a % 4) * 16 + b / 16), Char((b % 16) * 4), '=']
  }

  /** The last byte: two characters and "==". */
  function Group1(a: Text.Byte): (s: string)
    ensures |s| == 4 && s[2] == '=' && s[3] == '=' && '=' !in s[..2]
  {
    [Char(a / 4), Char((a % 4) * 16), '=', '=']
  }

  /** base64.URLEncoding.EncodeToString. */
  function Encode(b: seq<Text.Byte>): (s: string)
    ensures |s| == 4 * ((|b| + 2) / 3)
    decreases |b|
  {
    if |b| == 0 then ""
    else if |b| == 1 then Group1(b[0])
    else if |b| == 2 then Group2(b[0], b[1])
    else Group3(b[0], b[1], b[2]) + Encode(b[3..])
  }

  /** Decode one four-character block: three bytes, or fewer when the block
      ends in padding. None for a character outside the alphabet, for padding
      in the first two places and for a lone '=' before a data character. */
  function DecodeBlock(s: string): (r: Option<seq<Text.Byte>>)
    requires |s| == 4
    ensures r.Some? ==> 1 <= |r.value| <= 3
  {
    match (Index(s[0]), Index(s[1]))
    case (Some(i0), Some(i1)) =>
      if s[2] == '=' && s[3] == '=' then Some([i0 * 4 + i1 / 16])
      else if s[3] == '=' then
        (match Index(s[2])
         case Some(i2) => Some([i0 * 4 + i1 / 16, (i1 % 16) * 16 + i2 / 4])
         case None => None)
      else
        (match Index(s[2])
         case None => None
         case Some(i2) =>
           match Index(s[3])
           case None => None
           case Some(i3) => Some([i0 * 4 + i1 / 16, (i1 % 16) * 16 + i2 / 4, (i2 % 4) * 64 + i3]))
    case _ => None
  }

  /** base64.URLEncoding.DecodeString, accepting only padded input whose
      padding closes the last block. */
  function Decode(s: string): (r: Option<seq<Text.Byte>>)
    decreases |s|
  {
    if |s| == 0 then Some([])
    else if |s| < 4 then None
    else match DecodeBlock(s[..4])
      case None => None
      case Some(block) =>
        if |block| < 3 && |s| > 4 then None
        else match Decode(s[4..])
          case None => None
          case Some(rest) => Some(block + rest)
  }

  lemma Group3Decodes(a: Text.Byte, b: Text.Byte, c: Text.Byte)
    ensures DecodeBlock(Group3(a, b, c)) == Some([a, b, c])
  {
    var s := Group3(a, b, c);
    IndexOfChar(a / 4);
    IndexOfChar((a % 4) * 16 + b / 16);
    IndexOfChar((b % 16) * 4 + c / 64);
    IndexOfChar(c % 64);
    assert ((a % 4) * 16 + b / 16) / 16 == a % 4;
    assert ((a % 4) * 16 + b / 16) % 16 == b / 16;
    assert ((b % 16) * 4 + c / 64) / 4 == b % 16;
    assert ((b % 16) * 4 + c / 64) % 4 == c / 64;
  }

  lemma Group2Decodes(a: Text.Byte, b: Text.Byte)
    ensures DecodeBlock(Group2(a, b)) == Some([a, b])
  {
    IndexOfChar(a / 4);
    IndexOfChar((a % 4) * 16 + b / 16);
    IndexOfChar((b % 16) * 4);
    assert ((a % 4) * 16 + b / 16) / 16 == a % 4;
    assert ((a % 4) * 16 + b / 16) % 16 == b / 16;
    assert ((b % 16) * 4) / 4 == b % 16;
  }

  lemma Group1Decodes(a: Text.Byte)
    ensures DecodeBlock(Group1(a)) == Some([a])
  {
    IndexOfChar(a / 4);
    IndexOfChar((a % 4) * 16);
    assert ((a % 4) * 16) / 16 == a % 4;
  }

  /** Decoding gives back the encoded bytes. */
  lemma {:induction false} DecodeEncode(b: seq<Text.Byte>)
    ensures Decode(Encode(b)) == Some(b)
    decreases |b|
  {
    if |b| < 3 {
      DecodeEncodeShort(b);
    } else {
      DecodeEncode(b[3..]);
      EncodeHead(b);
      DecodeSplit(Encode(b), b);
    }
  }

  /** The final group of one or two bytes, and the empty input. */
  lemma DecodeEncodeShort(b: seq<Text.Byte>)
    requires |b| < 3
    ensures Decode(Encode(b)) == Some(b)
  {
    if |b| > 0 {
      EncodeLast(b);
      DecodeSplit(Encode(b), b);
    }
  }

  /** One or two bytes encode to a single block that decodes to them. */
  lemma EncodeLast(b: seq<Text.Byte>)
    requires 1 <= |b| < 3
    ensures |Encode(b)| == 4 && DecodeBlock(Encode(b)[..4]) == Some(b)
  {
    if |b| == 1 {
      Group1Decodes(b[0]);
      assert Encode(b)[..4] == Group1(b[0]);
      assert [b[0]] == b;
    } else {
      Group2Decodes(b[0], b[1]);
      assert Encode(b)[..4] == Group2(b[0], b[1]);
      assert [b[0], b[1]] == b;
    }
  }

  /** The first block of the encoding of three or more bytes decodes to the
      first three bytes, and the rest is the encoding of the rest. */
  lemma EncodeHead(b: seq<Text.Byte>)
    requires |b| >= 3
    ensures |Encode(b)| >= 4 && Encode(b)[4..] == Encode(b[3..])
    ensures DecodeBlock(Encode(b)[..4]) == Some(b[..3])
  {
    EncodeFront(b);
    calc {
      DecodeBlock(Encode(b)[..4]);
      DecodeBlock(Group3(b[0], b[1], b[2]));
      { Group3Decodes(b[0], b[1], b[2]); }
      Some([b[0], b[1], b[2]]);
      { assert [b[0], b[1], b[2]] == b[..3]; }
      Some(b[..3]);
    }
  }

  /** The encoding of three or more bytes is the first group's block
      followed by the encoding of the rest. */
  lemma EncodeFront(b: seq<Text.Byte>)
    requires |b| >= 3
    ensures |Encode(b)| >= 4
    ensures Encode(b)[..4] == Group3(b[0], b[1], b[2]) && Encode(b)[4..] == Encode(b[3..])
  {
    var g := Group3(b[0], b[1], b[2]);
    assert Encode(b) == g + Encode(b[3..]);
  }

  /** Decoding a text whose first block decodes to the first bytes and whose
      remainder decodes to the remaining bytes. */
  lemma DecodeSplit(s: string, b: seq<Text.Byte>)
    requires |s| >= 4
    requires DecodeBlock(s[..4]).Some? && |DecodeBlock(s[..4]).value| <= |b|
    requires DecodeBlock(s[..4]).value == b[..|DecodeBlock(s[..4]).value|]
    requires |DecodeBlock(s[..4]).value| == 3 || |s| == 4
    requires Decode(s[4..]) == Some(b[|DecodeBlock(s[..4]).value|..])
    ensures Decode(s) == Some(b)
  {
    var x := DecodeBlock(s[..4]).value;
    assert x + b[|x|..] == b;
  }

  /** Every character of an encoding is in the alphabet or is padding. */
  lemma {:induction false} EncodeAlphabet(b: seq<Text.Byte>)
    ensures forall k :: 0 <= k < |Encode(b)| ==> InAlphabet(Encode(b)[k])
    decreases |b|
  {
    if |b| >= 3 {
      EncodeAlphabet(b[3..]);
      var g := Group3(b[0], b[1], b[2]);
      assert forall k :: 0 <= k < 4 ==> InAlphabet(g[k]);
    }
  }

  /** A session token: 32 random bytes make 44 characters, the last one '='. */
  lemma TokenLength(b: seq<Text.Byte>)
    requires |b| == 32
    ensures |Encode(b)| == 44
    ensures Encode(b)[43] == '='
  {
    EncodeSuffix(b, 10);
    assert Encode(b)[43] == Encode(b[30..])[3];
  }

  /** After `k` whole groups the rest of the encoding is the encoding of the
      rest of the bytes. */
  lemma {:induction false} EncodeSuffix(b: seq<Text.Byte>, k: nat)
    requires 3 * k <= |b|
    ensures Encode(b)[4 * k..] == Encode(b[3 * k..])
    decreases k
  {
    if k > 0 {
      EncodeSuffix(b[3..], k - 1);
      assert b[3..][3 * (k - 1)..] == b[3 * k..];
    }
  }
}
