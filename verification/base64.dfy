/**
 * The base64 encoding of section 4 of RFC 4648, as used by `base64.b64encode`:
 * every 3 input bytes become 4 characters of the 64-character alphabet of
 * Table 1, and a final group of 1 or 2 bytes is completed with '=' padding.
 * `Decode` accepts exactly the canonical encodings (section 3.5: the unused
 * bits of the last group are zero), which makes it the inverse of `Encode`.
 */
module Base64 {
  import opened Wrappers

  type byte = x: int | 0 <= x < 256
  type sextet = x: int | 0 <= x < 64

  /** Table 1 of RFC 4648: the character that encodes a 6-bit value. */
  function Digit(v: sextet): (c: char)
    ensures c != '='
  {
    if v < 26 then ('A' as int + v) as char
    else if v < 52 then ('a' as int + (v - 26)) as char
    else if v < 62 then ('0' as int + (v - 52)) as char
    else if v == 62 then '+'
    else '/'
  }

  /** The 6-bit value a character of the alphabet stands for; None outside it. */
  function Value(c: char): (r: Option<sextet>)
    ensures r.Some? ==> Digit(r.value) == c
  {
    if 'A' <= c <= 'Z' then Some(c as int - 'A' as int)
    else if 'a' <= c <= 'z' then Some(c as int - 'a' as int + 26)
    else if '0' <= c <= '9' then Some(c as int - '0' as int + 52)
    else if c == '+' then Some(62)
    else if c == '/' then Some(63)
    else None
  }

  /** Every character of the alphabet is read back as the value it encodes. */
  lemma ValueOfDigit(v: sextet)
    ensures Value(Digit(v)) == Some(v)
  {
  }

  predicate IsAlphabet(c: char) {
    Value(c).Some?
  }

  /** One full 24-bit group: three bytes, four characters. */
  function Quantum(b0: byte, b1: byte, b2: byte): string {
    [Digit(b0 / 4), Digit(b0 % 4 * 16 + b1 / 16), Digit(b1 % 16 * 4 + b2 / 64), Digit(b2 % 64)]
  }

  function Encode(bs: seq<byte>): (s: string)
    ensures |s| == 4 * ((|bs| + 2) / 3)
    decreases |bs|
  {
    if |bs| == 0 then ""
    else if |bs| == 1 then [Digit(bs[0] / 4), Digit(bs[0] % 4 * 16), '=', '=']
    else if |bs| == 2 then [Digit(bs[0] / 4), Digit(bs[0] % 4 * 16 + bs[1] / 16), Digit(bs[1] % 16 * 4), '=']
    else Quantum(bs[0], bs[1], bs[2]) + Encode(bs[3..])
  }

  lemma DigitInAlphabet(v: sextet)
    ensures IsAlphabet(Digit(v))
  {
    ValueOfDigit(v);
  }

  /** An encoding uses only the alphabet and the padding character. */
  lemma {:induction false} EncodeAlphabet(bs: seq<byte>)
    ensures forall c :: c in Encode(bs) ==> IsAlphabet(c) || c == '='
    decreases |bs|
  {
    if |bs| == 1 {
      DigitInAlphabet(bs[0] / 4);
      DigitInAlphabet(bs[0] % 4 * 16);
    } else if |bs| == 2 {
      DigitInAlphabet(bs[0] / 4);
      DigitInAlphabet(bs[0] % 4 * 16 + bs[1] / 16);
      DigitInAlphabet(bs[1] % 16 * 4);
    } else if |bs| >= 3 {
      DigitInAlphabet(bs[0] / 4);
      DigitInAlphabet(bs[0] % 4 * 16 + bs[1] / 16);
      DigitInAlphabet(bs[1] % 16 * 4 + bs[2] / 64);
      DigitInAlphabet(bs[2] % 64);
      EncodeAlphabet(bs[3..]);
    }
  }

  /**
   * One group of four characters. Padding is accepted only in the final group
   * (`last`), and only when the bits it drops are zero.
   */
  function DecodeGroup(c0: char, c1: char, c2: char, c3: char, last: bool): (r: Option<seq<byte>>)
    ensures r.Some? ==> 1 <= |r.value| <= 3
    ensures r.Some? && |r.value| < 3 ==> last
  {
    match (Value(c0), Value(c1))
    case (Some(a), Some(b)) =>
      if c2 == '=' then
        if c3 == '=' && last && b % 16 == 0 then Some([a * 4 + b / 16]) else None
      else (
        match Value(c2)
        case None => None
        case Some(c) =>
          if c3 == '=' then
            if last && c % 4 == 0 then Some([a * 4 + b / 16, b % 16 * 16 + c / 4]) else None
          else (
            match Value(c3)
            case None => None
            case Some(d) => Some([a * 4 + b / 16, b % 16 * 16 + c / 4, c % 4 * 64 + d])
          )
      )
    case _ => None
  }

  function Decode(s: string): (r: Option<seq<byte>>)
    decreases |s|
  {
    if |s| == 0 then Some([])
    else if |s| < 4 then None
    else match DecodeGroup(s[0], s[1], s[2], s[3], |s| == 4)
      case None => None
      case Some(g) =>
        if |s| == 4 then Some(g)
        else (
          match Decode(s[4..])
          case None => None
          case Some(rest) => Some(g + rest)
        )
  }

  /** A single group of four characters decodes as that group. */
  lemma DecodeLast(s: string, g: seq<byte>)
    requires |s| == 4 && DecodeGroup(s[0], s[1], s[2], s[3], true) == Some(g)
    ensures Decode(s) == Some(g)
  {
  }

  /** A longer string decodes as its first group followed by the decoding of the rest. */
  lemma DecodeFirst(s: string, g: seq<byte>, rest: seq<byte>)
    requires |s| > 4 && DecodeGroup(s[0], s[1], s[2], s[3], false) == Some(g)
    requires Decode(s[4..]) == Some(rest)
    ensures Decode(s) == Some(g + rest)
  {
  }

  /** Splitting three bytes into four sextets and joining them back is the identity. */
  lemma BytesToSextets(b0: byte, b1: byte, b2: byte)
    ensures (b0 / 4) * 4 + (b0 % 4 * 16 + b1 / 16) / 16 == b0
    ensures (b0 % 4 * 16 + b1 / 16) % 16 * 16 + (b1 % 16 * 4 + b2 / 64) / 4 == b1
    ensures (b1 % 16 * 4 + b2 / 64) % 4 * 64 + b2 % 64 == b2
  {
  }

  /** Joining four sextets into three bytes and splitting them back is the identity. */
  lemma SextetsToBytes(a: sextet, b: sextet, c: sextet, d: sextet)
    ensures (a * 4 + b / 16) / 4 == a
    ensures (a * 4 + b / 16) % 4 * 16 + (b % 16 * 16 + c / 4) / 16 == b
    ensures (b % 16 * 16 + c / 4) % 16 * 4 + (c % 4 * 64 + d) / 64 == c
    ensures (c % 4 * 64 + d) % 64 == d
  {
  }

  lemma DecodeQuantum(b0: byte, b1: byte, b2: byte, last: bool)
    ensures var q := Quantum(b0, b1, b2); DecodeGroup(q[0], q[1], q[2], q[3], last) == Some([b0, b1, b2])
  {
    BytesToSextets(b0, b1, b2);
    ValueOfDigit(b0 / 4);
    ValueOfDigit(b0 % 4 * 16 + b1 / 16);
    ValueOfDigit(b1 % 16 * 4 + b2 / 64);
    ValueOfDigit(b2 % 64);
  }

  lemma DecodeEncodeOne(b0: byte)
    ensures Decode(Encode([b0])) == Some([b0])
  {
    var s := Encode([b0]);
    assert s == [Digit(b0 / 4), Digit(b0 % 4 * 16), '=', '='];
    BytesToSextets(b0, 0, 0);
    ValueOfDigit(b0 / 4);
    ValueOfDigit(b0 % 4 * 16);
    DecodeLast(s, [b0]);
  }

  lemma DecodeEncodeTwo(b0: byte, b1: byte)
    ensures Decode(Encode([b0, b1])) == Some([b0, b1])
  {
    var s := Encode([b0, b1]);
    assert s == [Digit(b0 / 4), Digit(b0 % 4 * 16 + b1 / 16), Digit(b1 % 16 * 4), '='];
    BytesToSextets(b0, b1, 0);
    ValueOfDigit(b0 / 4);
    ValueOfDigit(b0 % 4 * 16 + b1 / 16);
    ValueOfDigit(b1 % 16 * 4);
    DecodeLast(s, [b0, b1]);
  }

  lemma DecodeEncodeThree(b0: byte, b1: byte, b2: byte)
    ensures Decode(Encode([b0, b1, b2])) == Some([b0, b1, b2])
  {
    var s := Encode([b0, b1, b2]);
    var q := Quantum(b0, b1, b2);
    assert [b0, b1, b2][3..] == [];
    assert s == q;
    DecodeQuantum(b0, b1, b2, true);
    DecodeLast(s, [b0, b1, b2]);
  }

  /** Decoding undoes encoding, so the encoded payload determines the bytes. */
  lemma {:induction false} DecodeEncode(bs: seq<byte>)
    ensures Decode(Encode(bs)) == Some(bs)
    decreases |bs|
  {
    if |bs| == 1 {
      assert bs == [bs[0]];
      DecodeEncodeOne(bs[0]);
    } else if |bs| == 2 {
      assert bs == [bs[0], bs[1]];
      DecodeEncodeTwo(bs[0], bs[1]);
    } else if |bs| == 3 {
      assert bs == [bs[0], bs[1], bs[2]];
      DecodeEncodeThree(bs[0], bs[1], bs[2]);
    } else if |bs| > 3 {
      assert bs[..3] == [bs[0], bs[1], bs[2]];
      assert bs[..3] + bs[3..] == bs;
      var s, rest := Encode(bs), Encode(bs[3..]);
      var q := Quantum(bs[0], bs[1], bs[2]);
      assert s == q + rest;
      assert s[0] == q[0] && s[1] == q[1] && s[2] == q[2] && s[3] == q[3];
      assert s[4..] == rest;
      DecodeQuantum(bs[0], bs[1], bs[2], false);
      DecodeEncode(bs[3..]);
      DecodeFirst(s, bs[..3], bs[3..]);
    }
  }

  lemma EncodeGroupOne(c0: char, c1: char, c2: char, c3: char, last: bool)
    requires DecodeGroup(c0, c1, c2, c3, last).Some? && c2 == '='
    ensures Encode(DecodeGroup(c0, c1, c2, c3, last).value) == [c0, c1, c2, c3]
  {
    var a: int, b: int := Value(c0).value, Value(c1).value;
    SextetsToBytes(a, b, 0, 0);
    assert DecodeGroup(c0, c1, c2, c3, last).value == [a * 4 + b / 16];
  }

  lemma EncodeGroupTwo(c0: char, c1: char, c2: char, c3: char, last: bool)
    requires DecodeGroup(c0, c1, c2, c3, last).Some? && c2 != '=' && c3 == '='
    ensures Encode(DecodeGroup(c0, c1, c2, c3, last).value) == [c0, c1, c2, c3]
  {
    var a: int, b: int, c: int := Value(c0).value, Value(c1).value, Value(c2).value;
    SextetsToBytes(a, b, c, 0);
    assert DecodeGroup(c0, c1, c2, c3, last).value == [a * 4 + b / 16, b % 16 * 16 + c / 4];
  }

  lemma EncodeGroupThree(c0: char, c1: char, c2: char, c3: char, last: bool)
    requires DecodeGroup(c0, c1, c2, c3, last).Some? && c2 != '=' && c3 != '='
    ensures var g := DecodeGroup(c0, c1, c2, c3, last).value;
      |g| == 3 && Quantum(g[0], g[1], g[2]) == [c0, c1, c2, c3]
  {
    var a: int, b: int, c: int, d: int := Value(c0).value, Value(c1).value, Value(c2).value, Value(c3).value;
    SextetsToBytes(a, b, c, d);
    assert DecodeGroup(c0, c1, c2, c3, last).value == [a * 4 + b / 16, b % 16 * 16 + c / 4, c % 4 * 64 + d];
  }

  /** Every string the decoder accepts is the encoding of what it decodes to. */
  lemma {:induction false} EncodeDecode(s: string)
    requires Decode(s).Some?
    ensures Encode(Decode(s).value) == s
    decreases |s|
  {
    if |s| > 0 {
      var last := |s| == 4;
      if s[2] == '=' {
        EncodeGroupOne(s[0], s[1], s[2], s[3], last);
        assert s == [s[0], s[1], s[2], s[3]];
      } else if s[3] == '=' {
        EncodeGroupTwo(s[0], s[1], s[2], s[3], last);
        assert s == [s[0], s[1], s[2], s[3]];
      } else {
        EncodeGroupThree(s[0], s[1], s[2], s[3], last);
        var g := DecodeGroup(s[0], s[1], s[2], s[3], last).value;
        var rest := if last then [] else Decode(s[4..]).value;
        if !last {
          EncodeDecode(s[4..]);
        }
        EncodeFullGroup(s, g, rest);
      }
    }
  }

  lemma EncodeFullGroup(s: string, g: seq<byte>, rest: seq<byte>)
    requires |s| >= 4 && |g| == 3 && Quantum(g[0], g[1], g[2]) == s[..4]
    requires Encode(rest) == s[4..]
    ensures Encode(g + rest) == s
  {
    var bs := g + rest;
    assert bs[0] == g[0] && bs[1] == g[1] && bs[2] == g[2] && bs[3..] == rest;
    assert s == s[..4] + s[4..];
  }
}
