/** The standard base64 encoding with padding (section 4 of RFC 4648), as the Go
    library's `base64.StdEncoding` decodes it: line breaks are skipped, and the bits
    that padding leaves over are not checked. */
module Base64 {
  import opened Api

  type Byte = b: int | 0 <= b < 256
  type Bytes = seq<Byte>

  type Digit = d: int | 0 <= d < 64

  function DigitChar(d: Digit): char {
    if d < 26 then ('A' as int + d) as char
    else if d < 52 then ('a' as int + d - 26) as char
    else if d < 62 then ('0' as int + d - 52) as char
    else if d == 62 then '+'
    else '/'
  }

  function CharDigit(c: char): Option<Digit> {
    if 'A' <= c <= 'Z' then Some(c as int - 'A' as int)
    else if 'a' <= c <= 'z' then Some(c as int - 'a' as int + 26)
    else if '0' <= c <= '9' then Some(c as int - '0' as int + 52)
    else if c == '+' then Some(62)
    else if c == '/' then Some(63)
    else None
  }

  predicate IsDigit(c: char) {
    CharDigit(c).Some?
  }

  /** The standard alphabet: capital letters, small letters, decimal digits, each in
      order, and then + and /. */
  lemma StandardAlphabet(d: Digit)
    ensures DigitChar(0) == 'A' && DigitChar(25) == 'Z' && DigitChar(26) == 'a' && DigitChar(51) == 'z'
    ensures DigitChar(52) == '0' && DigitChar(61) == '9' && DigitChar(62) == '+' && DigitChar(63) == '/'
    ensures d < 61 && d != 25 && d != 51 ==> DigitChar(d + 1) as int == DigitChar(d) as int + 1
  {
  }

  /** A character is a digit only if it is in the alphabet. */
  lemma DigitsOfTheAlphabet(c: char)
    ensures IsDigit(c) ==> DigitChar(CharDigit(c).value) == c
  {
  }

  lemma DigitRoundTrip(d: Digit)
    ensures CharDigit(DigitChar(d)) == Some(d)
  {
  }

  // ---------------------------------------------------------------- encoding

  function Quad(a: Byte, b: Byte, c: Byte): (q: string)
    ensures |q| == 4
  {
    [DigitChar(a / 4), DigitChar(a % 4 * 16 + b / 16), DigitChar(b % 16 * 4 + c / 64), DigitChar(c % 64)]
  }

  function Encode(bytes: Bytes): string {
    if |bytes| == 0 then ""
    else if |bytes| == 1 then Quad(bytes[0], 0, 0)[..2] + "=="
    else if |bytes| == 2 then Quad(bytes[0], bytes[1], 0)[..3] + "="
    else Quad(bytes[0], bytes[1], bytes[2]) + Encode(bytes[3..])
  }

  // ---------------------------------------------------------------- decoding

  function SkipBreaks(text: string): string {
    if text == "" then ""
    else if text[0] == '\n' || text[0] == '\r' then SkipBreaks(text[1..])
    else [text[0]] + SkipBreaks(text[1..])
  }

  /** The three bytes that four digits spell. */
  function Triple(d0: Digit, d1: Digit, d2: Digit, d3: Digit): (r: Bytes)
    ensures |r| == 3
  {
    [d0 * 4 + d1 / 16, d1 % 16 * 16 + d2 / 4, d2 % 4 * 64 + d3]
  }

  function DecodeQuads(text: string): Option<Bytes> {
    if text == "" then Some([])
    else if |text| < 4 || !IsDigit(text[0]) || !IsDigit(text[1]) then None
    else
      var d0, d1, d2, d3 := CharDigit(text[0]).value, CharDigit(text[1]).value, CharDigit(text[2]), CharDigit(text[3]);
      if |text| == 4 && text[2] == '=' && text[3] == '=' then Some(Triple(d0, d1, 0, 0)[..1])
      else if d2.None? then None
      else if |text| == 4 && text[3] == '=' then Some(Triple(d0, d1, d2.value, 0)[..2])
      else if d3.None? then None
      else
        var rest := DecodeQuads(text[4..]);
        if rest.None? then None else Some(Triple(d0, d1, d2.value, d3.value) + rest.value)
  }

  function Decode(text: string): Option<Bytes> {
    DecodeQuads(SkipBreaks(text))
  }

  /** `text` is in groups of four characters, of which at most the last two are padding. */
  predicate WellFormed(text: string, pad: nat) {
    && pad <= 2 && pad <= |text| && |text| % 4 == 0
    && (forall i :: 0 <= i < |text| - pad ==> IsDigit(text[i]))
    && (forall i :: |text| - pad <= i < |text| ==> text[i] == '=')
  }

  /** Exactly such texts are accepted; they spell three bytes for each group, less one for
      each character of padding. */
  lemma {:induction false} DecodesExactly(text: string)
    ensures DecodeQuads(text).Some? <==> exists pad: nat :: WellFormed(text, pad)
    ensures forall pad: nat :: WellFormed(text, pad) && DecodeQuads(text).Some? ==>
      4 * (|DecodeQuads(text).value| + pad) == 3 * |text|
  {
    if text == "" {
      assert WellFormed(text, 0);
    } else if |text| == 4 {
      LastGroup(text);
    } else if |text| > 4 {
      DecodesExactly(text[4..]);
      forall pad: nat {
        NotLastGroup(text, pad);
      }
    }
  }

  lemma NotLastGroup(text: string, pad: nat)
    requires |text| > 4
    ensures WellFormed(text, pad) <==>
      WellFormed(text[4..], pad) && IsDigit(text[0]) && IsDigit(text[1]) && IsDigit(text[2]) && IsDigit(text[3])
  {
    assert forall i :: 4 <= i < |text| ==> text[i] == text[4..][i - 4];
  }

  lemma LastGroup(text: string)
    requires |text| == 4
    ensures DecodeQuads(text).Some? <==> exists pad: nat :: WellFormed(text, pad)
    ensures forall pad: nat :: WellFormed(text, pad) && DecodeQuads(text).Some? ==>
      |DecodeQuads(text).value| + pad == 3
  {
    assert text[4..] == "";
    if DecodeQuads(text).Some? {
      var pad := if text[2] == '=' then 2 else if text[3] == '=' then 1 else 0;
      assert WellFormed(text, pad);
    }
  }

  // ---------------------------------------------------------------- what is written

  /** Four digits and three bytes are the same 24 bits, the most significant ones first. */
  lemma SameBits(a: Byte, b: Byte, c: Byte)
    ensures var q := Quad(a, b, c);
            && IsDigit(q[0]) && IsDigit(q[1]) && IsDigit(q[2]) && IsDigit(q[3])
            && CharDigit(q[0]).value * 0x40000 + CharDigit(q[1]).value * 0x1000
                 + CharDigit(q[2]).value * 0x40 + CharDigit(q[3]).value
               == a * 0x10000 + b * 0x100 + c
  {
    QuadRoundTrip(a, b, c);
    DigitRoundTrip(a / 4);
    DigitRoundTrip(a % 4 * 16 + b / 16);
    DigitRoundTrip(b % 16 * 4 + c / 64);
    DigitRoundTrip(c % 64);
  }

  /** The byte at position `i`; what is missing at the end counts as zero. */
  function ByteAt(bytes: Bytes, i: nat): Byte {
    if i < |bytes| then bytes[i] else 0
  }

  /** The first group: the digits that only missing bytes would determine are padding. */
  function FirstGroup(bytes: Bytes): (group: string)
    requires bytes != []
    ensures |group| == 4
  {
    var q := Quad(bytes[0], ByteAt(bytes, 1), ByteAt(bytes, 2));
    if |bytes| == 1 then [q[0], q[1], '=', '='] else if |bytes| == 2 then [q[0], q[1], q[2], '='] else q
  }

  lemma GroupFirst(bytes: Bytes)
    requires bytes != []
    ensures Encode(bytes) == FirstGroup(bytes) + if |bytes| > 3 then Encode(bytes[3..]) else ""
  {
    var q := Quad(bytes[0], ByteAt(bytes, 1), ByteAt(bytes, 2));
    if |bytes| < 3 {
      Cut(q);
    } else if |bytes| == 3 {
      assert bytes[3..] == [];
    }
  }

  lemma Cut(q: string)
    requires |q| == 4
    ensures q[..2] + "==" == [q[0], q[1], '=', '='] && q[..3] + "=" == [q[0], q[1], q[2], '=']
  {
  }

  /** Bytes are taken three at a time, and each group is written on its own. */
  lemma {:induction false} GroupsInOrder(bytes: Bytes, i: nat)
    requires 3 * i < |bytes|
    ensures 4 * i + 4 <= |Encode(bytes)| && (3 * i + 3 >= |bytes| ==> 4 * i + 4 == |Encode(bytes)|)
    ensures Encode(bytes)[4 * i..4 * i + 4] == FirstGroup(bytes[3 * i..])
    decreases i
  {
    GroupFirst(bytes);
    if i == 0 {
      assert bytes[0..] == bytes;
    } else {
      var rest := Encode(bytes[3..]);
      GroupsInOrder(bytes[3..], i - 1);
      GroupNext(FirstGroup(bytes), rest, i);
      assert bytes[3..][3 * (i - 1)..] == bytes[3 * i..];
    }
  }

  lemma GroupNext(first: string, rest: string, i: nat)
    requires |first| == 4 && 0 < i && 4 * i <= |rest|
    ensures (first + rest)[4 * i..4 * i + 4] == rest[4 * (i - 1)..4 * (i - 1) + 4]
  {
  }

  // ---------------------------------------------------------------- round trip

  lemma QuadRoundTrip(a: Byte, b: Byte, c: Byte)
    ensures var q := Quad(a, b, c);
            && CharDigit(q[0]).Some? && CharDigit(q[1]).Some? && CharDigit(q[2]).Some? && CharDigit(q[3]).Some?
            && Triple(CharDigit(q[0]).value, CharDigit(q[1]).value, CharDigit(q[2]).value, CharDigit(q[3]).value)
                 == [a, b, c]
  {
    DigitRoundTrip(a / 4);
    DigitRoundTrip(a % 4 * 16 + b / 16);
    DigitRoundTrip(b % 16 * 4 + c / 64);
    DigitRoundTrip(c % 64);
    BitsRoundTrip(a, b, c);
  }

  lemma BitsRoundTrip(a: Byte, b: Byte, c: Byte)
    ensures Triple(a / 4, a % 4 * 16 + b / 16, b % 16 * 4 + c / 64, c % 64) == [a, b, c]
  {
    assert (a % 4 * 16 + b / 16) / 16 == a % 4 && (a % 4 * 16 + b / 16) % 16 == b / 16;
    assert (b % 16 * 4 + c / 64) / 4 == b % 16 && (b % 16 * 4 + c / 64) % 4 == c / 64;
  }

  lemma {:induction false} QuadsRoundTrip(bytes: Bytes)
    ensures DecodeQuads(Encode(bytes)) == Some(bytes)
  {
    if |bytes| < 3 {
      ShortRoundTrip(bytes);
    } else {
      var rest := bytes[3..];
      QuadsRoundTrip(rest);
      ThreeRoundTrip(bytes[0], bytes[1], bytes[2], Encode(rest), rest);
      assert Encode(bytes) == Quad(bytes[0], bytes[1], bytes[2]) + Encode(rest);
      assert bytes == [bytes[0], bytes[1], bytes[2]] + rest;
    }
  }

  lemma ShortRoundTrip(bytes: Bytes)
    requires |bytes| < 3
    ensures DecodeQuads(Encode(bytes)) == Some(bytes)
  {
    if |bytes| == 1 {
      OneRoundTrip(bytes[0]);
      assert bytes == [bytes[0]];
    } else if |bytes| == 2 {
      TwoRoundTrip(bytes[0], bytes[1]);
      assert bytes == [bytes[0], bytes[1]];
    }
  }

  lemma ThreeRoundTrip(a: Byte, b: Byte, c: Byte, rest: string, bytes: Bytes)
    requires DecodeQuads(rest) == Some(bytes)
    ensures DecodeQuads(Quad(a, b, c) + rest) == Some([a, b, c] + bytes)
  {
    var text := Quad(a, b, c) + rest;
    QuadRoundTrip(a, b, c);
    assert text[4..] == rest;
    assert forall i :: 0 <= i < 4 ==> text[i] == Quad(a, b, c)[i];
  }

  lemma OneRoundTrip(a: Byte)
    ensures DecodeQuads(Encode([a])) == Some([a])
  {
    var d0, d1 := a / 4, a % 4 * 16;
    DigitRoundTrip(d0);
    DigitRoundTrip(d1);
    assert Encode([a]) == [DigitChar(d0), DigitChar(d1), '=', '='];
    BitsRoundTrip(a, 0, 0);
    assert Triple(d0, d1, 0, 0)[..1] == [a];
  }

  lemma TwoRoundTrip(a: Byte, b: Byte)
    ensures DecodeQuads(Encode([a, b])) == Some([a, b])
  {
    var d0, d1, d2 := a / 4, a % 4 * 16 + b / 16, b % 16 * 4;
    DigitRoundTrip(d0);
    DigitRoundTrip(d1);
    DigitRoundTrip(d2);
    assert Encode([a, b]) == [DigitChar(d0), DigitChar(d1), DigitChar(d2), '='];
    BitsRoundTrip(a, b, 0);
    assert Triple(d0, d1, d2, 0)[..2] == [a, b];
  }

  ghost predicate NoBreaks(text: string) {
    forall i :: 0 <= i < |text| ==> text[i] != '\n' && text[i] != '\r'
  }

  lemma {:induction false} NothingSkipped(text: string)
    requires NoBreaks(text)
    ensures SkipBreaks(text) == text
  {
    if text != "" {
      NothingSkipped(text[1..]);
    }
  }

  lemma {:induction false} EncodesNoBreaks(bytes: Bytes)
    ensures NoBreaks(Encode(bytes))
  {
    if |bytes| >= 3 {
      EncodesNoBreaks(bytes[3..]);
    }
  }

  /** Every byte string is recovered from its encoding. */
  lemma RoundTrip(bytes: Bytes)
    ensures Decode(Encode(bytes)) == Some(bytes)
    ensures Encode(bytes) == "" <==> bytes == []
  {
    EncodesNoBreaks(bytes);
    NothingSkipped(Encode(bytes));
    QuadsRoundTrip(bytes);
  }
}
