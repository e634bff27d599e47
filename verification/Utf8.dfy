/** UTF-8 (section 3 of RFC 3629). Decoding never fails: like the Go library, it takes
    a byte that starts no valid sequence for U+FFFD. */
module Utf8 {
  import opened Base64

  const REPLACEMENT := '\U{FFFD}'

  function EncodeChar(c: char): Bytes {
    var n := c as int;
    if n < 0x80 then [n]
    else if n < 0x800 then [0xC0 + n / 0x40, 0x80 + n % 0x40]
    else if n < 0x10000 then [0xE0 + n / 0x1000, 0x80 + n / 0x40 % 0x40, 0x80 + n % 0x40]
    else [0xF0 + n / 0x40000, 0x80 + n / 0x1000 % 0x40, 0x80 + n / 0x40 % 0x40, 0x80 + n % 0x40]
  }

  function Encode(text: string): Bytes {
    if text == "" then [] else EncodeChar(text[0]) + Encode(text[1..])
  }

  predicate IsContinuation(b: int) {
    0x80 <= b < 0xC0
  }

  /** The number of bytes of the valid sequence at the start, or 0, and its code point. */
  function Leading(bytes: Bytes): (r: (nat, int))
    requires bytes != []
    ensures r.0 <= |bytes|
    ensures r.0 > 0 ==> 0 <= r.1 < 0xD800 || 0xE000 <= r.1 < 0x11_0000
  {
    var b0: int := bytes[0];
    var b1: int := if |bytes| >= 2 then bytes[1] else 0;
    var b2: int := if |bytes| >= 3 then bytes[2] else 0;
    var b3: int := if |bytes| >= 4 then bytes[3] else 0;
    if b0 < 0x80 then (1, b0)
    else if 0xC0 <= b0 < 0xE0 && IsContinuation(b1) then
      var n := (b0 - 0xC0) * 0x40 + (b1 - 0x80);
      if n >= 0x80 then (2, n) else (0, 0)
    else if 0xE0 <= b0 < 0xF0 && IsContinuation(b1) && IsContinuation(b2) then
      var n := (b0 - 0xE0) * 0x1000 + (b1 - 0x80) * 0x40 + (b2 - 0x80);
      if n >= 0x800 && !(0xD800 <= n < 0xE000) then (3, n) else (0, 0)
    else if 0xF0 <= b0 && IsContinuation(b1) && IsContinuation(b2) && IsContinuation(b3) then
      var n := (b0 - 0xF0) * 0x40000 + (b1 - 0x80) * 0x1000 + (b2 - 0x80) * 0x40 + (b3 - 0x80);
      if 0x10000 <= n < 0x11_0000 then (4, n) else (0, 0)
    else (0, 0)
  }

  function Decode(bytes: Bytes): string {
    if bytes == [] then ""
    else
      var (len, n) := Leading(bytes);
      if len == 0 then [REPLACEMENT] + Decode(bytes[1..])
      else [n as char] + Decode(bytes[len..])
  }

  /** Splitting a number into six-bit groups and putting it together again. */
  lemma Groups(n: nat)
    ensures n == n / 0x40 * 0x40 + n % 0x40
    ensures n == n / 0x1000 * 0x1000 + n / 0x40 % 0x40 * 0x40 + n % 0x40
    ensures n == n / 0x40000 * 0x40000 + n / 0x1000 % 0x40 * 0x1000 + n / 0x40 % 0x40 * 0x40 + n % 0x40
  {
    assert n / 0x1000 == n / 0x40 / 0x40;
    assert n / 0x40000 == n / 0x1000 / 0x40;
  }

  lemma LeadingChar(c: char, rest: Bytes)
    ensures Leading(EncodeChar(c) + rest) == (|EncodeChar(c)|, c as int)
  {
    var first := EncodeChar(c);
    var bytes := first + rest;
    assert forall i :: 0 <= i < |first| ==> bytes[i] == first[i];
    Groups(c as int);
  }

  /** Every Unicode string is recovered from its encoding. */
  lemma {:induction false} RoundTrip(text: string)
    ensures Decode(Encode(text)) == text
  {
    if text != "" {
      var first, rest := EncodeChar(text[0]), Encode(text[1..]);
      LeadingChar(text[0], rest);
      assert (first + rest)[|first|..] == rest;
      RoundTrip(text[1..]);
    }
  }
}
