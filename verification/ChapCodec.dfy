/** Binary values in CHAP keys, in hex and in base64 (section 5.1 of RFC 3720). */
module ChapCodec {
  import opened Options
  import opened Bytes

  // ---- hex ----

  /** decode_hex_digit: any other character counts as 0. */
  function HexDigit(c: char): (d: nat)
    ensures d < 16
  {
    if '0' <= c <= '9' then c as int - '0' as int
    else if 'a' <= c <= 'f' then c as int - 'a' as int + 10
    else if 'A' <= c <= 'F' then c as int - 'A' as int + 10
    else 0
  }

  /** The number that a hex text denotes. */
  function HexValue(s: string): nat
  {
    if s == [] then 0 else HexValue(s[..|s| - 1]) * 16 + HexDigit(s[|s| - 1])
  }

  function HexCode(d: nat): char
    requires d < 16
  {
    if d < 10 then (d + '0' as int) as char else (d - 10 + 'a' as int) as char
  }

  const HEX_DIGITS := "0123456789abcdef"

  lemma HexAlphabet(d: nat)
    requires d < 16
    ensures HexCode(d) == HEX_DIGITS[d] && HexDigit(HEX_DIGITS[d]) == d && HexDigit("0123456789ABCDEF"[d]) == d
  {
  }

  function HexText(p: seq<byte>): string
  {
    if p == [] then []
    else var b := p[|p| - 1]; HexText(p[..|p| - 1]) + [HexCode(b / 16), HexCode(b % 16)]
  }

  lemma HexAppend(s: string, c: char, d: char)
    ensures HexValue(s + [c, d]) == HexValue(s) * 256 + HexDigit(c) * 16 + HexDigit(d)
  {
    assert s + [c, d] == s + [c] + [d];
    assert (s + [c] + [d])[..|s| + 1] == s + [c] && (s + [c])[..|s|] == s;
  }

  /** The text of a byte string denotes its big-endian value. */
  lemma {:induction false} HexTextMeans(p: seq<byte>)
    ensures |HexText(p)| == 2 * |p| && HexValue(HexText(p)) == GetBe(p)
  {
    if p != [] {
      var b := p[|p| - 1];
      HexTextMeans(p[..|p| - 1]);
      HexAppend(HexText(p[..|p| - 1]), HexCode(b / 16), HexCode(b % 16));
    }
  }

  /** encode_hex_string */
  method EncodeHex(p: seq<byte>) returns (s: string)
    ensures s == HexText(p)
  {
    s := [];
    for i := 0 to |p|
      invariant s == HexText(p[..i])
    {
      s := s + [HexCode(p[i] / 16), HexCode(p[i] % 16)];
      assert p[..i + 1][..i] == p[..i];
    }
    assert p[..|p|] == p;
  }

  /** The digits not read yet. */
  function Unread(s: string, ptr: int): string
    requires ptr <= |s|
  {
    if ptr > 0 then s[..ptr] else []
  }

  /** decode_hex_string on the text after the two characters "0x". It reads digit pairs from the end; for an odd
      number of digits the last pair takes in the 'x', which counts as 0. The result is right-aligned and
      zero-filled. */
  method DecodeHex(encoded: string, buf: array<byte>)
    requires |encoded| >= 3 && HexDigit(encoded[1]) == 0 && |encoded| - 2 <= 2 * buf.Length
    modifies buf
    ensures buf[..] == PutBe(HexValue(encoded[2..]), buf.Length)
  {
    var s := encoded[2..];
    var ptr, j := |s|, buf.Length - 1;
    assert s[..ptr] == s && buf[j + 1..] == [];
    var first := true;
    while first || ptr > 0
      invariant -1 <= ptr <= |s| && -1 <= j < buf.Length && ptr <= 2 * (j + 1)
      invariant first ==> ptr == |s|
      invariant PutBe(HexValue(s), buf.Length) == PutBe(HexValue(Unread(s, ptr)), j + 1) + buf[j + 1..]
      decreases ptr
    {
      first := false;
      ghost var done := buf[j + 1..];
      var lo := HexDigit(encoded[2 + ptr - 1]);
      var hi := HexDigit(encoded[2 + ptr - 2]);
      PairStep(s, ptr, lo, hi, j, done);
      buf[j] := hi * 16 + lo;
      assert buf[j..] == [hi * 16 + lo] + done;
      ptr, j := ptr - 2, j - 1;
    }
    while j >= 0
      invariant -1 <= j < buf.Length
      invariant PutBe(HexValue(s), buf.Length) == PutBe(0, j + 1) + buf[j + 1..]
    {
      ghost var done := buf[j + 1..];
      buf[j] := 0;
      assert buf[j..] == [0] + done;
      j := j - 1;
    }
  }

  lemma PairStep(s: string, ptr: int, lo: nat, hi: nat, j: nat, done: seq<byte>)
    requires 0 < ptr <= |s| && lo == HexDigit(s[ptr - 1]) && hi == if ptr > 1 then HexDigit(s[ptr - 2]) else 0
    ensures hi * 16 + lo < 256
    ensures PutBe(HexValue(Unread(s, ptr)), j + 1) + done ==
      PutBe(HexValue(Unread(s, ptr - 2)), j) + ([hi * 16 + lo] + done)
  {
    PairValue(s[..ptr], lo, hi);
    assert ptr > 2 ==> s[..ptr][..ptr - 2] == s[..ptr - 2];
  }

  lemma LowByte(v: nat, b: nat)
    requires b < 256
    ensures (v * 256 + b) / 256 == v && (v * 256 + b) % 256 == b
  {
  }

  /** What the last two digits of a text contribute to its last byte. */
  lemma PairValue(left: string, lo: nat, hi: nat)
    requires left != [] && lo == HexDigit(left[|left| - 1])
    requires hi == if |left| > 1 then HexDigit(left[|left| - 2]) else 0
    ensures HexValue(left) % 256 == hi * 16 + lo
    ensures HexValue(left) / 256 == HexValue(if |left| > 2 then left[..|left| - 2] else [])
  {
    if |left| == 1 {
      assert HexValue(left[..0]) == 0 && HexValue(left) == lo;
    } else {
      var k := |left| - 2;
      var v := HexValue(left[..k]);
      assert left == left[..k] + [left[k], left[k + 1]];
      HexAppend(left[..k], left[k], left[k + 1]);
      assert HexValue(left) == v * 256 + (hi * 16 + lo);
      LowByte(v, hi * 16 + lo);
    }
  }

  // ---- base64 ----

  const PAD := '='

  function Code(d: nat): char
    requires d < 64
  {
    if d < 26 then (d + 'A' as int) as char
    else if d < 52 then (d - 26 + 'a' as int) as char
    else if d < 62 then (d - 52 + '0' as int) as char
    else if d == 62 then '+' else '/'
  }

  /** decode_base64_digit: 64 for the pad, 255 (that is, -1) for characters outside the alphabet */
  function Digit(c: char): (d: nat)
    ensures d < 256
  {
    if c == PAD then 64
    else if c == '/' then 63
    else if c == '+' then 62
    else if 'A' <= c <= 'Z' then c as int - 'A' as int
    else if 'a' <= c <= 'z' then 26 + (c as int - 'a' as int)
    else if '0' <= c <= '9' then 52 + (c as int - '0' as int)
    else 255
  }

  lemma DigitOfCode(d: nat)
    requires d < 64
    ensures Digit(Code(d)) == d
  {
  }

  const UPPER := "ABCDEFGHIJKLMNOPQRSTUVWXYZ"
  const LOWER := "abcdefghijklmnopqrstuvwxyz"
  const DIGITS := "0123456789"
  const ALPHABET := UPPER + LOWER + DIGITS + "+/"

  lemma UpperInOrder(d: nat)
    requires d < 26
    ensures UPPER[d] as int == d + 'A' as int
  {
  }

  lemma LowerInOrder(d: nat)
    requires d < 26
    ensures LOWER[d] as int == d + 'a' as int
  {
  }

  lemma DigitsInOrder(d: nat)
    requires d < 10
    ensures DIGITS[d] as int == d + '0' as int
  {
  }

  /** The digits are the letters of the alphabet in its order. */
  lemma AlphabetInOrder(d: nat)
    requires d < 64
    ensures |ALPHABET| == 64 && Code(d) == ALPHABET[d] && Digit(ALPHABET[d]) == d
  {
    DigitOfCode(d);
    if d < 26 {
      UpperInOrder(d);
      assert ALPHABET[d] == UPPER[d];
    } else if d < 52 {
      LowerInOrder(d - 26);
      assert ALPHABET[d] == LOWER[d - 26];
    } else if d < 62 {
      DigitsInOrder(d - 52);
      assert ALPHABET[d] == DIGITS[d - 52];
    }
  }

  /** And no other character is a digit. */
  lemma AlphabetIsAll(c: char)
    ensures Digit(c) < 64 <==> c in ALPHABET
  {
    if Digit(c) < 64 {
      AlphabetInOrder(Digit(c));
      assert c == Code(Digit(c));
    }
    if c in ALPHABET {
      var d :| 0 <= d < |ALPHABET| && ALPHABET[d] == c;
      AlphabetInOrder(d);
    }
  }

  function Quad(a: byte, b: byte, c: byte): string
  {
    [Code(a / 4), Code(a % 4 * 16 + b / 16), Code(b % 16 * 4 + c / 64), Code(c % 64)]
  }

  function Base64(p: seq<byte>): string
  {
    if |p| == 0 then []
    else if |p| == 1 then [Code(p[0] / 4), Code(p[0] % 4 * 16), PAD, PAD]
    else if |p| == 2 then [Code(p[0] / 4), Code(p[0] % 4 * 16 + p[1] / 16), Code(p[1] % 16 * 4), PAD]
    else Quad(p[0], p[1], p[2]) + Base64(p[3..])
  }

  function Base64Value(s: string): nat
  {
    if s == [] then 0 else Base64Value(s[..|s| - 1]) * 64 + Digit(s[|s| - 1])
  }

  lemma FourDigits(s: string)
    requires |s| == 4
    ensures Base64Value(s) == ((Digit(s[0]) * 64 + Digit(s[1])) * 64 + Digit(s[2])) * 64 + Digit(s[3])
  {
    assert s[..3][..2] == s[..2] && s[..2][..1] == s[..1] && s[..1][..0] == [];
    assert Base64Value(s[..1]) == Digit(s[0]);
    assert Base64Value(s[..2]) == Base64Value(s[..1]) * 64 + Digit(s[1]);
  }

  lemma ThreeDigits(p: seq<byte>)
    requires |p| == 3
    ensures var a: int, b: int, c: int := p[0], p[1], p[2]; GetBe(p) == (a * 256 + b) * 256 + c
  {
    assert p[..2][..1] == p[..1] && p[..1][..0] == [];
    assert GetBe(p[..1]) == p[0];
    assert GetBe(p[..2]) == GetBe(p[..1]) * 256 + p[1];
  }

  /** Four letters denote the same number as the three bytes that they stand for. */
  lemma QuadMeans(a: byte, b: byte, c: byte)
    ensures Base64Value(Quad(a, b, c)) == GetBe([a, b, c])
  {
    FourDigits(Quad(a, b, c));
    ThreeDigits([a, b, c]);
    DigitOfCode(a / 4);
    DigitOfCode(a % 4 * 16 + b / 16);
    DigitOfCode(b % 16 * 4 + c / 64);
    DigitOfCode(c % 64);
  }

  predicate Letters(s: string, n: nat)
    requires n <= |s|
  {
    forall i | 0 <= i < n :: Digit(s[i]) < 64
  }

  function ThreeBytes(s: string): seq<byte>
    requires |s| >= 4 && Letters(s, 4)
  {
    [Digit(s[0]) * 4 + Digit(s[1]) / 16, Digit(s[1]) % 16 * 16 + Digit(s[2]) / 4, Digit(s[2]) % 4 * 64 + Digit(s[3])]
  }

  /** The bytes of a well-formed text; None for any other. */
  function Unbase64(s: string): Option<seq<byte>>
  {
    if |s| < 4 then None
    else if |s| > 4 then
      if !Letters(s, 4) then None
      else
        match Unbase64(s[4..])
        case None => None
        case Some(rest) => Some(ThreeBytes(s) + rest)
    else if !Letters(s, 2) then None
    else if Digit(s[2]) == 64 && Digit(s[3]) == 64 then Some([Digit(s[0]) * 4 + Digit(s[1]) / 16])
    else if Digit(s[2]) >= 64 then None
    else if Digit(s[3]) == 64 then
      Some([Digit(s[0]) * 4 + Digit(s[1]) / 16, Digit(s[1]) % 16 * 16 + Digit(s[2]) / 4])
    else if Digit(s[3]) > 64 then None
    else Some(ThreeBytes(s))
  }

  /** A group of letters denotes the same number as the bytes decoded, once the bits that fill up the last letter are
      dropped. */
  lemma GroupMeans(s: string)
    requires |s| == 4 && Unbase64(s).Some?
    ensures var p := Unbase64(s).value;
            && (|p| == 3 ==> GetBe(p) == Base64Value(s))
            && (|p| == 2 ==> GetBe(p) == Base64Value(s[..3]) / 4)
            && (|p| == 1 ==> GetBe(p) == Base64Value(s[..2]) / 16)
  {
    var p := Unbase64(s).value;
    FourDigits(s);
    assert s[..3][..2] == s[..2] && s[..2][..1] == s[..1] && s[..1][..0] == [];
    assert Base64Value(s[..1]) == Digit(s[0]);
    assert Base64Value(s[..2]) == Base64Value(s[..1]) * 64 + Digit(s[1]);
    assert p[..1][..0] == [] && GetBe(p[..1]) == p[0];
    if |p| == 3 {
      ThreeDigits(p);
    } else if |p| == 2 {
      assert GetBe(p) == GetBe(p[..1]) * 256 + p[1];
    } else {
      assert p[..1] == p;
    }
  }

  /** Letters but for k pads at the end. */
  predicate Padded(s: string, k: nat)
  {
    k <= |s| && Letters(s, |s| - k) && forall i | |s| - k <= i < |s| :: s[i] == PAD
  }

  lemma PadDigitOnly(c: char)
    ensures Digit(c) == 64 <==> c == PAD
  {
  }

  /** The texts that are decoded: whole groups, at least one, of letters with at most two pads at the end. */
  lemma {:induction false} WellFormedIff(s: string)
    ensures Unbase64(s).Some? <==>
            |s| >= 4 && |s| % 4 == 0 && (Padded(s, 0) || Padded(s, 1) || Padded(s, 2))
    decreases |s|
  {
    if |s| == 4 {
      PadDigitOnly(s[2]);
      PadDigitOnly(s[3]);
    } else if |s| > 4 {
      WellFormedIff(s[4..]);
      if |s| >= 8 {
        PaddedTail(s, 0);
        PaddedTail(s, 1);
        PaddedTail(s, 2);
      }
    }
  }

  lemma PaddedTail(s: string, k: nat)
    requires |s| > 4 && k <= 2 && |s| - 4 >= k
    ensures Padded(s, k) && |s| - k >= 4 <==> Letters(s, 4) && Padded(s[4..], k)
  {
    if Letters(s, 4) && Padded(s[4..], k) {
      forall i | 0 <= i < |s| - k
        ensures Digit(s[i]) < 64
      {
        assert i >= 4 ==> s[i] == s[4..][i - 4];
      }
      forall i | |s| - k <= i < |s|
        ensures s[i] == PAD
      {
        assert s[i] == s[4..][i - 4];
      }
    }
  }

  lemma QuadDecodes(a: byte, b: byte, c: byte)
    ensures Letters(Quad(a, b, c), 4) && ThreeBytes(Quad(a, b, c)) == [a, b, c]
  {
    DigitOfCode(a / 4);
    DigitOfCode(a % 4 * 16 + b / 16);
    DigitOfCode(b % 16 * 4 + c / 64);
    DigitOfCode(c % 64);
  }

  lemma OneDecodes(p: seq<byte>)
    requires |p| == 1
    ensures Unbase64(Base64(p)) == Some(p)
  {
    OneLetter(p[0]);
    assert p == [p[0]];
  }

  lemma OneLetter(a: byte)
    ensures Unbase64([Code(a / 4), Code(a % 4 * 16), PAD, PAD]) == Some([a])
  {
    DigitOfCode(a / 4);
    DigitOfCode(a % 4 * 16);
    PaddedTwice([Code(a / 4), Code(a % 4 * 16), PAD, PAD]);
    SixBits(a, 0);
  }

  lemma PaddedTwice(s: string)
    requires |s| == 4 && Letters(s, 2) && s[2] == PAD && s[3] == PAD
    ensures Unbase64(s) == Some([Digit(s[0]) * 4 + Digit(s[1]) / 16])
  {
  }

  lemma TwoDecode(p: seq<byte>)
    requires |p| == 2
    ensures Unbase64(Base64(p)) == Some(p)
  {
    TwoLetters(p[0], p[1]);
    assert p == [p[0], p[1]];
  }

  lemma SixBits(a: byte, b: byte)
    ensures a == a / 4 * 4 + (a % 4 * 16 + b / 16) / 16
    ensures b == (a % 4 * 16 + b / 16) % 16 * 16 + b % 16 * 4 / 4
  {
  }

  lemma TwoLetters(a: byte, b: byte)
    ensures Unbase64([Code(a / 4), Code(a % 4 * 16 + b / 16), Code(b % 16 * 4), PAD]) == Some([a, b])
  {
    DigitOfCode(a / 4);
    DigitOfCode(a % 4 * 16 + b / 16);
    DigitOfCode(b % 16 * 4);
    PaddedOnce([Code(a / 4), Code(a % 4 * 16 + b / 16), Code(b % 16 * 4), PAD]);
    SixBits(a, b);
  }

  lemma PaddedOnce(s: string)
    requires |s| == 4 && Letters(s, 3) && s[3] == PAD
    ensures Unbase64(s) == Some([Digit(s[0]) * 4 + Digit(s[1]) / 16, Digit(s[1]) % 16 * 16 + Digit(s[2]) / 4])
  {
    assert Digit(s[2]) < 64;
  }

  lemma LastQuad(s: string)
    requires |s| == 4 && Letters(s, 4)
    ensures Unbase64(s) == Some(ThreeBytes(s))
  {
    assert Digit(s[2]) < 64 && Digit(s[3]) < 64;
  }

  lemma ThreeDecode(p: seq<byte>)
    requires |p| == 3
    ensures Unbase64(Base64(p)) == Some(p)
  {
    QuadDecodes(p[0], p[1], p[2]);
    LastQuad(Quad(p[0], p[1], p[2]));
    assert Base64(p[3..]) == [];
    assert Base64(p) == Quad(p[0], p[1], p[2]);
    assert p == [p[0], p[1], p[2]];
  }

  lemma MoreDecode(q: string, rest: string)
    requires |q| == 4 && Letters(q, 4) && rest != []
    ensures Unbase64(q + rest) ==
      if Unbase64(rest).None? then None else Some(ThreeBytes(q) + Unbase64(rest).value)
  {
    var s := q + rest;
    assert s[4..] == rest && Letters(s, 4) && ThreeBytes(s) == ThreeBytes(q);
  }

  lemma {:induction false} Base64Length(p: seq<byte>)
    ensures |Base64(p)| == (|p| + 2) / 3 * 4
  {
    if |p| > 2 {
      Base64Length(p[3..]);
      assert |Base64(p)| == 4 + |Base64(p[3..])|;
      assert (|p| + 2) / 3 == (|p[3..]| + 2) / 3 + 1;
    }
  }

  /** Base64 decoding undoes encoding, for every non-empty byte string. */
  lemma {:induction false} Base64RoundTrip(p: seq<byte>)
    requires p != []
    ensures Unbase64(Base64(p)) == Some(p)
  {
    if |p| == 1 {
      OneDecodes(p);
    } else if |p| == 2 {
      TwoDecode(p);
    } else if |p| == 3 {
      ThreeDecode(p);
    } else {
      Base64RoundTrip(p[3..]);
      QuadDecodes(p[0], p[1], p[2]);
      MoreDecode(Quad(p[0], p[1], p[2]), Base64(p[3..]));
      assert p == [p[0], p[1], p[2]] + p[3..];
    }
  }

  /** encode_base64_string */
  method EncodeBase64(p: seq<byte>) returns (s: string)
    ensures s == Base64(p)
  {
    s := [];
    var count := 0;
    assert p[0..] == p;
    while |p| - count > 2
      invariant 0 <= count <= |p| && s + Base64(p[count..]) == Base64(p)
    {
      assert p[count..][3..] == p[count + 3..];
      s := s + Quad(p[count], p[count + 1], p[count + 2]);
      count := count + 3;
    }
    if |p| - count == 1 {
      s := s + [Code(p[count] / 4), Code(p[count] % 4 * 16), PAD, PAD];
    } else if |p| - count == 2 {
      s := s + [Code(p[count] / 4), Code(p[count] % 4 * 16 + p[count + 1] / 16), Code(p[count + 1] % 16 * 4), PAD];
    }
  }

  /** The length that chap_alloc_decode_buffer computes for base64 text whose length is a multiple of 4. */
  function DecodedLength(s: string): int
    requires |s| >= 4
  {
    |s| / 4 * 3 - (if s[|s| - 1] == PAD then 1 else 0) - (if s[|s| - 2] == PAD then 1 else 0)
  }

  lemma {:induction false} DecodedLengthExact(s: string)
    requires Unbase64(s).Some?
    ensures |s| >= 4 && |s| % 4 == 0 && |Unbase64(s).value| == DecodedLength(s)
  {
    if |s| > 4 {
      DecodedLengthExact(s[4..]);
    }
  }

  lemma PadDigit(c: char)
    ensures Digit(c) == 64 <==> c == PAD
  {
  }

  /** Where the decoder is: the text from count on is still to be decoded, to go to buf[at..]. */
  ghost predicate Halfway(s: string, count: nat, buf: seq<byte>, at: nat)
    requires count <= |s| && at <= |buf|
  {
    Unbase64(s).Some? ==>
      Unbase64(s[count..]).Some? && Unbase64(s).value == buf[..at] + Unbase64(s[count..]).value
  }

  lemma QuadStep(s: string, count: nat, was: seq<byte>, at: nat, three: seq<byte>, buf: seq<byte>)
    requires count + 4 < |s| && at + 3 <= |was| && Halfway(s, count, was, at) && |three| == 3
    requires Letters(s[count..], 4) ==> three == ThreeBytes(s[count..])
    requires buf == was[..at] + three + was[at + 3..]
    ensures Halfway(s, count + 4, buf, at + 3)
  {
    if Unbase64(s).Some? {
      assert s[count..][4..] == s[count + 4..];
      assert buf[..at + 3] == was[..at] + three;
    }
  }

  method Store(buf: array<byte>, at: nat, three: seq<byte>)
    requires at + 3 <= buf.Length && |three| == 3
    modifies buf
    ensures buf[..] == old(buf[..at]) + three + old(buf[at + 3..])
    ensures buf[at + 3..] == old(buf[at + 3..])
  {
    buf[at], buf[at + 1], buf[at + 2] := three[0], three[1], three[2];
  }

  /** decode_base64_string: the bytes of a well-formed text go to the front of the buffer. Of other text it may
      store what the bit operations make of characters outside the alphabet, here `stray`. */
  method DecodeBase64(s: string, buf: array<byte>, stray: string -> (byte, byte, byte))
    requires |s| >= 4 && |s| % 4 == 0 ==> DecodedLength(s) <= buf.Length
    modifies buf
    ensures Unbase64(s).Some? ==>
      var p := Unbase64(s).value; |p| <= buf.Length && buf[..] == p + old(buf[|p|..])
    ensures |s| < 4 || |s| % 4 != 0 ==> buf[..] == old(buf[..])
  {
    if |s| == 0 || |s| % 4 != 0 {
      if Unbase64(s).Some? {
        DecodedLengthExact(s);
      }
      return;
    }
    ghost var was := buf[..];
    var at := DecodeQuads(s, buf, stray);
    ghost var mid := buf[..];
    DecodeLast(s[|s| - 4..], buf, at, stray);
    AllDecoded(s, was, mid, buf[..], at);
  }

  lemma AllDecoded(s: string, was: seq<byte>, mid: seq<byte>, buf: seq<byte>, at: nat)
    requires |s| >= 4 && at <= |was| == |mid| == |buf| && Halfway(s, |s| - 4, mid, at)
    requires mid[at..] == was[at..] && buf[..at] == mid[..at]
    requires Unbase64(s[|s| - 4..]).Some? ==>
      var p := Unbase64(s[|s| - 4..]).value; at + |p| <= |buf| && buf[at..] == p + mid[at + |p|..]
    ensures Unbase64(s).Some? ==>
      var p := Unbase64(s).value; |p| <= |buf| && buf == p + was[|p|..]
  {
    if Unbase64(s).Some? {
      var last := Unbase64(s[|s| - 4..]).value;
      assert buf == buf[..at] + buf[at..];
      assert mid[at..][|last|..] == mid[at + |last|..] && was[at..][|last|..] == was[at + |last|..];
    }
  }

  /** The loop over all but the last four characters. */
  method DecodeQuads(s: string, buf: array<byte>, stray: string -> (byte, byte, byte)) returns (at: nat)
    requires |s| >= 4 && |s| % 4 == 0 && 3 * (|s| / 4 - 1) <= buf.Length
    modifies buf
    ensures at == 3 * (|s| / 4 - 1)
    ensures Halfway(s, |s| - 4, buf[..], at) && buf[at..] == old(buf[at..])
  {
    at := 0;
    assert s[0..] == s;
    for q := 0 to |s| / 4 - 1
      invariant at == 3 * q
      invariant Halfway(s, 4 * q, buf[..], at) && buf[at..] == old(buf[at..])
    {
      ghost var was := buf[..];
      var three := ReadQuad(s[4 * q..], stray);
      Store(buf, at, three);
      QuadStep(s, 4 * q, was, at, three, buf[..]);
      at := at + 3;
    }
  }

  function ReadQuad(q: string, stray: string -> (byte, byte, byte)): (r: seq<byte>)
    requires |q| >= 4
    ensures |r| == 3
  {
    if Letters(q, 4) then ThreeBytes(q) else [stray(q).0, stray(q).1, stray(q).2]
  }

  /** The last four characters. */
  method DecodeLast(q: string, buf: array<byte>, at: nat, stray: string -> (byte, byte, byte))
    requires |q| == 4 && at + DecodedLength(q) <= buf.Length
    modifies buf
    ensures buf[..at] == old(buf[..at])
    ensures Unbase64(q).Some? ==>
      var p := Unbase64(q).value; at + |p| <= buf.Length && buf[at..] == p + old(buf[at + |p|..])
  {
    PadDigit(q[2]);
    PadDigit(q[3]);
    if Digit(q[0]) == 64 || Digit(q[1]) == 64 {
      return;
    }
    if q[2] == PAD {
      if q[3] != PAD {
        return;
      }
      buf[at] := if Letters(q, 2) then Digit(q[0]) * 4 + Digit(q[1]) / 16 else stray(q).0;
    } else if q[3] == PAD {
      if Letters(q, 3) {
        buf[at], buf[at + 1] := Digit(q[0]) * 4 + Digit(q[1]) / 16, Digit(q[1]) % 16 * 16 + Digit(q[2]) / 4;
      } else {
        buf[at], buf[at + 1] := stray(q).0, stray(q).1;
      }
    } else if Letters(q, 4) {
      buf[at], buf[at + 1], buf[at + 2] := ThreeBytes(q)[0], ThreeBytes(q)[1], ThreeBytes(q)[2];
    } else {
      buf[at], buf[at + 1], buf[at + 2] := stray(q).0, stray(q).1, stray(q).2;
    }
  }

  // ---- the prefixed text ----

  datatype Format = Hex | B64

  function Encode(p: seq<byte>, f: Format): string
  {
    match f
    case Hex => "0x" + HexText(p)
    case B64 => "0b" + Base64(p)
  }

  /** chap_check_encoding_format */
  function CheckFormat(e: string): Option<Format>
  {
    if |e| < 3 || e[0] != '0' then None
    else if e[1] == 'x' || e[1] == 'X' then Some(Hex)
    else if e[1] == 'b' || e[1] == 'B' then Some(B64)
    else None
  }

  /** chap_alloc_decode_buffer: the length allocated, or None */
  function AllocLength(e: string, f: Format): Option<nat>
    requires |e| >= 3
  {
    var i := |e| - 2;
    match f
    case Hex => Some((i - 1) / 2 + 1)
    case B64 =>
      if i % 4 != 0 then None
      else var n := DecodedLength(e[2..]); if n > 0 then Some(n) else None
  }

  /** chap_decode_string into a buffer of n bytes, for text the decoders accept */
  function Decode(e: string, f: Format, n: nat): Option<seq<byte>>
    requires |e| >= 3
  {
    match f
    case Hex => if |e| - 2 > 2 * n then None else Some(PutBe(HexValue(e[2..]), n))
    case B64 => if n == 0 || |e| - 2 > ((n - 1) / 3 + 1) * 4 then None else Unbase64(e[2..])
  }

  /** For every non-empty byte string and both formats: the format is recognised, the buffer allocated for the text has
      exactly the length of the byte string, and decoding into it gives back the byte string. */
  lemma RoundTrip(p: seq<byte>, f: Format)
    requires p != []
    ensures var e := Encode(p, f);
      && |e| >= 3 && CheckFormat(e) == Some(f) && AllocLength(e, f) == Some(|p|)
      && Decode(e, f, |p|) == Some(p)
  {
    var e := Encode(p, f);
    match f
    case Hex =>
      HexTextMeans(p);
      PutGet(p);
      assert e[2..] == HexText(p);
    case B64 =>
      Base64Length(p);
      Base64RoundTrip(p);
      DecodedLengthExact(Base64(p));
      assert e[2..] == Base64(p);
  }

  /** Hex text in either case, with or without a leading digit, is read as the number it denotes. */
  lemma HexMeans(e: string, n: nat)
    requires |e| >= 3 && |e| - 2 <= 2 * n
    ensures HexValue(e[2..]) < Limit(n) && Decode(e, Hex, n).Some? && GetBe(Decode(e, Hex, n).value) == HexValue(e[2..])
  {
    HexBound(e[2..], n);
    GetPut(HexValue(e[2..]), n);
  }

  lemma {:induction false} HexBound(s: string, n: nat)
    requires |s| <= 2 * n
    ensures HexValue(s) < Limit(n)
  {
    if |s| == 1 {
      assert HexValue(s[..0]) == 0;
      assert Limit(n) == 256 * Limit(n - 1);
    } else if |s| > 1 {
      var k := |s| - 2;
      HexBound(s[..k], n - 1);
      HexAppend(s[..k], s[k], s[k + 1]);
      assert s == s[..k] + [s[k], s[k + 1]];
    }
  }
}
