/**
 * The base64 encoding of RFC 4648, section 4 (standard alphabet, `=` padding),
 * as Python's `base64.b64encode` produces it, together with a reference
 * decoder that the encoder is proved to be inverse to.
 */
module Base64 {
  import opened Wrappers

  type byte = b: int | 0 <= b < 256
  /** A 6-bit group: one character of encoded text. */
  type sextet = i: int | 0 <= i < 64

  const PAD: char := '='

  const UPPER: string := "ABCDEFGHIJKLMNOPQRSTUVWXYZ"
  const LOWER: string := "abcdefghijklmnopqrstuvwxyz"
  const DIGITS: string := "0123456789"
  /** The alphabet of Table 1 in section 4 of RFC 4648, value 0 first. */
  const ALPHABET: string := UPPER + LOWER + DIGITS + "+/"

  /** The character that encodes the 6-bit value `i`. */
  function CharOf(i: sextet): char
  {
    if i < 26 then ('A' as int + i) as char
    else if i < 52 then ('a' as int + (i - 26)) as char
    else if i < 62 then ('0' as int + (i - 52)) as char
    else if i == 62 then '+'
    else '/'
  }

  /** The 6-bit value a character of the alphabet stands for; None for any other character. */
  function ValueOf(c: char): (r: Option<sextet>)
    ensures r.Some? ==> CharOf(r.value) == c
  {
    if 'A' <= c <= 'Z' then Some(c as int - 'A' as int)
    else if 'a' <= c <= 'z' then Some(c as int - 'a' as int + 26)
    else if '0' <= c <= '9' then Some(c as int - '0' as int + 52)
    else if c == '+' then Some(62)
    else if c == '/' then Some(63)
    else None
  }

  predicate IsAlphabetChar(c: char)
  {
    ValueOf(c).Some?
  }

  lemma UpperRun()
    ensures UPPER == seq(26, k requires 0 <= k < 26 => ('A' as int + k) as char)
  {
  }

  lemma LowerRun()
    ensures LOWER == seq(26, k requires 0 <= k < 26 => ('a' as int + k) as char)
  {
  }

  lemma DigitRun()
    ensures DIGITS == seq(10, k requires 0 <= k < 10 => ('0' as int + k) as char)
  {
  }

  /** `CharOf` is the table of RFC 4648. */
  lemma CharOfIsTable(i: sextet)
    ensures CharOf(i) == ALPHABET[i]
  {
    if i < 26 {
      UpperRun();
    } else if i < 52 {
      LowerRun();
      assert ALPHABET[i] == LOWER[i - 26];
    } else if i < 62 {
      DigitRun();
      assert ALPHABET[i] == DIGITS[i - 52];
    }
  }

  /** `ValueOf` reads the table backwards. */
  lemma ValueOfCharOf(i: sextet)
    ensures ValueOf(CharOf(i)) == Some(i)
  {
  }

  /** Three bytes become four characters, six bits each, most significant first. */
  function EncodeBlock(b0: byte, b1: byte, b2: byte): string
  {
    [CharOf(b0 / 4), CharOf((b0 % 4) * 16 + b1 / 16), CharOf((b1 % 16) * 4 + b2 / 64), CharOf(b2 % 64)]
  }

  /** The final one or two bytes become four characters, the last ones padding. */
  function EncodeTail(data: seq<byte>): string
    requires 1 <= |data| <= 2
  {
    if |data| == 1 then [CharOf(data[0] / 4), CharOf((data[0] % 4) * 16), PAD, PAD]
    else [CharOf(data[0] / 4), CharOf((data[0] % 4) * 16 + data[1] / 16), CharOf((data[1] % 16) * 4), PAD]
  }

  /** Python's `base64.b64encode(data).decode('utf-8')`. */
  function Encode(data: seq<byte>): (text: string)
    ensures |text| == 4 * ((|data| + 2) / 3)
  {
    if |data| == 0 then []
    else if |data| < 3 then EncodeTail(data)
    else EncodeBlock(data[0], data[1], data[2]) + Encode(data[3..])
  }

  /** Number of `=` characters that end the encoding of `n` bytes. */
  function PadCount(n: nat): nat
  {
    (3 - n % 3) % 3
  }

  /** The first byte of a group: all six bits of `i0`, the top two of `i1`. */
  function FirstByte(i0: sextet, i1: sextet): byte
  {
    i0 as int * 4 + i1 as int / 16
  }

  /** The second byte of a group: the low four bits of `i1`, the top four of `i2`. */
  function SecondByte(i1: sextet, i2: sextet): byte
  {
    (i1 as int % 16) * 16 + i2 as int / 4
  }

  /** The third byte of a group: the low two bits of `i2`, all six of `i3`. */
  function ThirdByte(i2: sextet, i3: sextet): byte
  {
    (i2 as int % 4) * 64 + i3 as int
  }

  /**
   * Decodes one group of four characters. Only the final group (`last`) may
   * end in one or two padding characters, and then the bits below the last
   * byte must be zero (the canonical encoding of section 3.5 of RFC 4648).
   */
  function DecodeGroup(c0: char, c1: char, c2: char, c3: char, last: bool): Option<seq<byte>>
  {
    match (ValueOf(c0), ValueOf(c1), ValueOf(c2), ValueOf(c3))
    case (Some(i0), Some(i1), Some(i2), Some(i3)) =>
      Some([FirstByte(i0, i1), SecondByte(i1, i2), ThirdByte(i2, i3)])
    case (Some(i0), Some(i1), Some(i2), None) =>
      if last && c3 == PAD && i2 % 4 == 0 then Some([FirstByte(i0, i1), SecondByte(i1, i2)]) else None
    case (Some(i0), Some(i1), None, None) =>
      if last && c2 == PAD && c3 == PAD && i1 % 16 == 0 then Some([FirstByte(i0, i1)]) else None
    case _ => None
  }

  /** The bytes of one group in front of the bytes of the rest; None when either failed. */
  function Prepend(head: Option<seq<byte>>, tail: Option<seq<byte>>): Option<seq<byte>>
  {
    if head.Some? && tail.Some? then Some(head.value + tail.value) else None
  }

  /**
   * A base64 decoder: one group of four characters at a time, only the final
   * group padded; None for text that is not a well-formed encoding (a length
   * that is not a multiple of four included).
   */
  function Decode(text: string): Option<seq<byte>>
  {
    if text == [] then Some([])
    else if |text| < 4 then None
    else Prepend(DecodeGroup(text[0], text[1], text[2], text[3], |text| == 4), Decode(text[4..]))
  }

  lemma FirstByteInverse(b0: byte, b1: byte)
    ensures FirstByte(b0 / 4, (b0 % 4) * 16 + b1 / 16) == b0
  {
  }

  lemma SecondByteInverse(b0: byte, b1: byte, b2: byte)
    ensures SecondByte((b0 % 4) * 16 + b1 / 16, (b1 % 16) * 4 + b2 / 64) == b1
  {
    var i1, i2 := (b0 % 4) * 16 + b1 / 16, (b1 % 16) * 4 + b2 / 64;
    assert i1 % 16 == b1 / 16;
    assert i2 / 4 == b1 % 16;
  }

  lemma ThirdByteInverse(b1: byte, b2: byte)
    ensures ThirdByte((b1 % 16) * 4 + b2 / 64, b2 % 64) == b2
  {
  }

  /** Decoding the group that `EncodeBlock` makes gives back its three bytes. */
  lemma BlockRoundTrip(b0: byte, b1: byte, b2: byte, last: bool)
    ensures var g := EncodeBlock(b0, b1, b2);
      DecodeGroup(g[0], g[1], g[2], g[3], last) == Some([b0, b1, b2])
  {
    ValueOfCharOf(b0 / 4);
    ValueOfCharOf((b0 % 4) * 16 + b1 / 16);
    ValueOfCharOf((b1 % 16) * 4 + b2 / 64);
    ValueOfCharOf(b2 % 64);
    FirstByteInverse(b0, b1);
    SecondByteInverse(b0, b1, b2);
    ThirdByteInverse(b1, b2);
  }

  /** Decoding a well-decoded first group followed by well-decoded groups. */
  lemma DecodeGroupsCons(text: string, head: seq<byte>, tail: seq<byte>)
    requires |text| >= 4
    requires DecodeGroup(text[0], text[1], text[2], text[3], |text| == 4) == Some(head)
    requires Decode(text[4..]) == Some(tail)
    ensures Decode(text) == Some(head + tail)
  {
  }

  lemma OneByteRoundTrip(b0: byte)
    ensures Decode(Encode([b0])) == Some([b0])
  {
    var text := Encode([b0]);
    assert text == EncodeTail([b0]);
    ValueOfCharOf(b0 / 4);
    ValueOfCharOf((b0 % 4) * 16);
    FirstByteInverse(b0, 0);
    assert (b0 % 4) * 16 + 0 / 16 == (b0 % 4) * 16;
    assert DecodeGroup(text[0], text[1], text[2], text[3], true) == Some([b0]);
    assert text[4..] == [];
    DecodeGroupsCons(text, [b0], []);
    assert [b0] + [] == [b0];
  }

  lemma TwoBytesRoundTrip(b0: byte, b1: byte)
    ensures Decode(Encode([b0, b1])) == Some([b0, b1])
  {
    var text := Encode([b0, b1]);
    assert text == EncodeTail([b0, b1]);
    ValueOfCharOf(b0 / 4);
    ValueOfCharOf((b0 % 4) * 16 + b1 / 16);
    ValueOfCharOf((b1 % 16) * 4);
    FirstByteInverse(b0, b1);
    SecondByteInverse(b0, b1, 0);
    assert (b1 % 16) * 4 + 0 / 64 == (b1 % 16) * 4;
    assert DecodeGroup(text[0], text[1], text[2], text[3], true) == Some([b0, b1]);
    assert text[4..] == [];
    DecodeGroupsCons(text, [b0, b1], []);
    assert [b0, b1] + [] == [b0, b1];
  }

  /** A decodable group in front of decodable text. */
  lemma GroupThen(g: string, rest: string, head: seq<byte>, tail: seq<byte>)
    requires |g| == 4
    requires DecodeGroup(g[0], g[1], g[2], g[3], rest == []) == Some(head)
    requires Decode(rest) == Some(tail)
    ensures Decode(g + rest) == Some(head + tail)
  {
    var text := g + rest;
    assert text[0] == g[0] && text[1] == g[1] && text[2] == g[2] && text[3] == g[3];
    assert text[4..] == rest;
    DecodeGroupsCons(text, head, tail);
  }

  /** A full group in front of decodable text decodes to its three bytes in front. */
  lemma DecodeBlockThen(b0: byte, b1: byte, b2: byte, rest: string, tail: seq<byte>)
    requires Decode(rest) == Some(tail)
    ensures Decode(EncodeBlock(b0, b1, b2) + rest) == Some([b0, b1, b2] + tail)
  {
    BlockRoundTrip(b0, b1, b2, rest == []);
    GroupThen(EncodeBlock(b0, b1, b2), rest, [b0, b1, b2], tail);
  }

  lemma EncodeUnfold(data: seq<byte>)
    requires |data| >= 3
    ensures Encode(data) == EncodeBlock(data[0], data[1], data[2]) + Encode(data[3..])
  {
  }

  /** A full group in front of an encoding that round-trips. */
  lemma DecodeEncodeStep(b0: byte, b1: byte, b2: byte, tail: seq<byte>)
    requires Decode(Encode(tail)) == Some(tail)
    ensures Decode(Encode([b0, b1, b2] + tail)) == Some([b0, b1, b2] + tail)
  {
    var data := [b0, b1, b2] + tail;
    assert data[3..] == tail;
    EncodeUnfold(data);
    DecodeBlockThen(b0, b1, b2, Encode(tail), tail);
  }

  /** Decoding an encoding gives back exactly the bytes encoded. */
  lemma {:induction false} DecodeEncode(data: seq<byte>)
    ensures Decode(Encode(data)) == Some(data)
  {
    if |data| == 1 {
      assert data == [data[0]];
      OneByteRoundTrip(data[0]);
    } else if |data| == 2 {
      assert data == [data[0], data[1]];
      TwoBytesRoundTrip(data[0], data[1]);
    } else if |data| >= 3 {
      DecodeEncode(data[3..]);
      assert data == [data[0], data[1], data[2]] + data[3..];
      DecodeEncodeStep(data[0], data[1], data[2], data[3..]);
    }
  }

  /** The first byte splits back into `i0` and the top two bits of `i1`. */
  lemma FirstByteParts(i0: sextet, i1: sextet)
    ensures FirstByte(i0, i1) / 4 == i0 && FirstByte(i0, i1) % 4 == i1 / 16
  {
  }

  /** The second byte splits back into the low four bits of `i1` and the top four of `i2`. */
  lemma SecondByteParts(i1: sextet, i2: sextet)
    ensures SecondByte(i1, i2) / 16 == i1 % 16 && SecondByte(i1, i2) % 16 == i2 / 4
  {
  }

  /** The third byte splits back into the low two bits of `i2` and `i3`. */
  lemma ThirdByteParts(i2: sextet, i3: sextet)
    ensures ThirdByte(i2, i3) / 64 == i2 % 4 && ThirdByte(i2, i3) % 64 == i3
  {
  }

  /** Re-encoding the three bytes of a full group gives back its characters. */
  lemma FullGroupCanonical(i0: sextet, i1: sextet, i2: sextet, i3: sextet)
    ensures EncodeBlock(FirstByte(i0, i1), SecondByte(i1, i2), ThirdByte(i2, i3))
      == [CharOf(i0), CharOf(i1), CharOf(i2), CharOf(i3)]
  {
    FirstByteParts(i0, i1);
    SecondByteParts(i1, i2);
    ThirdByteParts(i2, i3);
  }

  /** Re-encoding the two bytes of a group with one padding character gives back its characters. */
  lemma TwoByteGroupCanonical(i0: sextet, i1: sextet, i2: sextet)
    requires i2 % 4 == 0
    ensures EncodeTail([FirstByte(i0, i1), SecondByte(i1, i2)]) == [CharOf(i0), CharOf(i1), CharOf(i2), PAD]
  {
    var b0, b1 := FirstByte(i0, i1), SecondByte(i1, i2);
    FirstByteParts(i0, i1);
    SecondByteParts(i1, i2);
    assert (b0 % 4) * 16 + b1 / 16 == i1;
    assert (b1 % 16) * 4 == i2;
    assert EncodeTail([b0, b1]) == [CharOf(b0 / 4), CharOf((b0 % 4) * 16 + b1 / 16), CharOf((b1 % 16) * 4), PAD];
  }

  /** Re-encoding the byte of a group with two padding characters gives back its characters. */
  lemma OneByteGroupCanonical(i0: sextet, i1: sextet)
    requires i1 % 16 == 0
    ensures EncodeTail([FirstByte(i0, i1)]) == [CharOf(i0), CharOf(i1), PAD, PAD]
  {
    FirstByteParts(i0, i1);
  }

  /**
   * A group the decoder accepts is exactly what the encoder makes of its
   * bytes: a full group from three bytes, a padded final group from one or two.
   */
  lemma GroupCanonical(c0: char, c1: char, c2: char, c3: char, last: bool, head: seq<byte>)
    requires DecodeGroup(c0, c1, c2, c3, last) == Some(head)
    ensures 1 <= |head| <= 3
    ensures |head| == 3 ==> EncodeBlock(head[0], head[1], head[2]) == [c0, c1, c2, c3]
    ensures |head| < 3 ==> last && EncodeTail(head) == [c0, c1, c2, c3]
  {
    var v0, v1, v2, v3 := ValueOf(c0), ValueOf(c1), ValueOf(c2), ValueOf(c3);
    if v2.Some? && v3.Some? {
      FullGroupCanonical(v0.value, v1.value, v2.value, v3.value);
    } else if v2.Some? {
      TwoByteGroupCanonical(v0.value, v1.value, v2.value);
    } else {
      OneByteGroupCanonical(v0.value, v1.value);
    }
  }

  /** A full group's bytes in front of bytes that re-encode to `rest`. */
  lemma EncodeGroupThen(g: string, rest: string, head: seq<byte>, tail: seq<byte>)
    requires |head| == 3 && EncodeBlock(head[0], head[1], head[2]) == g
    requires Encode(tail) == rest
    ensures Encode(head + tail) == g + rest
  {
    var data := head + tail;
    assert data[3..] == tail;
    EncodeUnfold(data);
  }

  /** The bytes of a group the decoder accepts, in front of bytes that re-encode to `rest`. */
  lemma EncodeDecodeStep(c0: char, c1: char, c2: char, c3: char, rest: string, head: seq<byte>, tail: seq<byte>)
    requires DecodeGroup(c0, c1, c2, c3, rest == []) == Some(head)
    requires Encode(tail) == rest
    ensures Encode(head + tail) == [c0, c1, c2, c3] + rest
  {
    GroupCanonical(c0, c1, c2, c3, rest == [], head);
    if |head| == 3 {
      EncodeGroupThen([c0, c1, c2, c3], rest, head, tail);
    } else {
      assert tail == [];
      assert head + tail == head;
    }
  }

  /** Text the decoder accepts is a group it accepts followed by text it accepts. */
  lemma DecodeSplit(text: string)
    requires text != [] && Decode(text).Some?
    ensures |text| >= 4
    ensures DecodeGroup(text[0], text[1], text[2], text[3], text[4..] == []).Some?
    ensures Decode(text[4..]).Some?
    ensures Decode(text).value
      == DecodeGroup(text[0], text[1], text[2], text[3], text[4..] == []).value + Decode(text[4..]).value
  {
    assert (|text| == 4) == (text[4..] == []);
  }

  /**
   * Encoding what the decoder accepts gives back the text: every decodable
   * text is the one encoding of its bytes.
   */
  lemma {:induction false} EncodeDecode(text: string)
    requires Decode(text).Some?
    ensures Encode(Decode(text).value) == text
  {
    if text != [] {
      DecodeSplit(text);
      var rest := text[4..];
      EncodeDecode(rest);
      EncodeDecodeStep(text[0], text[1], text[2], text[3], rest,
                       DecodeGroup(text[0], text[1], text[2], text[3], rest == []).value, Decode(rest).value);
      assert text == [text[0], text[1], text[2], text[3]] + rest;
    }
  }

  /** No other text decodes to the bytes of an encoding. */
  lemma EncodingUnique(data: seq<byte>)
    ensures forall t :: Decode(t) == Some(data) ==> t == Encode(data)
  {
    forall t | Decode(t) == Some(data)
      ensures t == Encode(data)
    {
      EncodeDecode(t);
    }
  }

  lemma AlphabetChar(i: sextet)
    ensures IsAlphabetChar(CharOf(i)) && CharOf(i) != PAD
  {
    ValueOfCharOf(i);
  }

  /**
   * What it means for `text` to be the encoding of `n` bytes, character by
   * character: `4 * ceil(n / 3)` characters of the alphabet, the last
   * `PadCount(n)` of them replaced by padding.
   */
  predicate WellPadded(text: string, n: nat)
  {
    && |text| == 4 * ((n + 2) / 3)
    && forall k :: 0 <= k < |text| ==>
      (text[k] == PAD <==> k >= |text| - PadCount(n)) &&
      (text[k] != PAD ==> IsAlphabetChar(text[k]))
  }

  lemma OneByteWellPadded(b0: byte)
    ensures WellPadded(Encode([b0]), 1)
  {
    AlphabetChar(b0 / 4);
    AlphabetChar((b0 % 4) * 16);
    var text := Encode([b0]);
    assert text == EncodeTail([b0]) == [CharOf(b0 / 4), CharOf((b0 % 4) * 16), PAD, PAD];
  }

  lemma TwoBytesWellPadded(b0: byte, b1: byte)
    ensures WellPadded(Encode([b0, b1]), 2)
  {
    AlphabetChar(b0 / 4);
    AlphabetChar((b0 % 4) * 16 + b1 / 16);
    AlphabetChar((b1 % 16) * 4);
    var text := Encode([b0, b1]);
    assert text == EncodeTail([b0, b1]) == [CharOf(b0 / 4), CharOf((b0 % 4) * 16 + b1 / 16), CharOf((b1 % 16) * 4), PAD];
  }

  lemma BlockThenWellPadded(b0: byte, b1: byte, b2: byte, rest: string, n: nat)
    requires WellPadded(rest, n)
    ensures WellPadded(EncodeBlock(b0, b1, b2) + rest, n + 3)
  {
    var block := EncodeBlock(b0, b1, b2);
    var text := block + rest;
    AlphabetChar(b0 / 4);
    AlphabetChar((b0 % 4) * 16 + b1 / 16);
    AlphabetChar((b1 % 16) * 4 + b2 / 64);
    AlphabetChar(b2 % 64);
    assert PadCount(n + 3) == PadCount(n) <= 2;
    assert n > 0 ==> |rest| >= 4;
    forall k | 0 <= k < |text|
      ensures (text[k] == PAD <==> k >= |text| - PadCount(n + 3))
      ensures text[k] != PAD ==> IsAlphabetChar(text[k])
    {
      if k >= 4 {
        assert text[k] == rest[k - 4];
      } else {
        assert text[k] == block[k];
      }
    }
  }

  /**
   * The encoding of `n` bytes has `4 * ceil(n / 3)` characters: alphabet
   * characters followed by exactly `PadCount(n)` padding characters.
   */
  lemma {:induction false} EncodeAlphabet(data: seq<byte>)
    ensures WellPadded(Encode(data), |data|)
  {
    if |data| == 1 {
      assert data == [data[0]];
      OneByteWellPadded(data[0]);
    } else if |data| == 2 {
      assert data == [data[0], data[1]];
      TwoBytesWellPadded(data[0], data[1]);
    } else if |data| >= 3 {
      EncodeAlphabet(data[3..]);
      BlockThenWellPadded(data[0], data[1], data[2], Encode(data[3..]), |data| - 3);
    }
  }
}
