/** The JSON text of a stored handle: an object with two string members, written as
    Go's encoding/json writes it (sections 4 and 7 of RFC 8259). */
module Json {
  import opened Api

  // ---------------------------------------------------------------- writing strings

  function HexDigit(d: int): char
    requires 0 <= d < 16
  {
    if d < 10 then ('0' as int + d) as char else ('a' as int + d - 10) as char
  }

  /** The escape \uXXXX for a code point of at most four hex digits. */
  function Unicode(n: int): (r: string)
    requires 0 <= n < 0x10000
    ensures |r| == 6
  {
    ['\\', 'u', HexDigit(n / 0x1000), HexDigit(n / 0x100 % 0x10), HexDigit(n / 0x10 % 0x10), HexDigit(n % 0x10)]
  }

  function Escape(c: char): string {
    if c == '"' then "\\\""
    else if c == '\\' then "\\\\"
    else if c == '\U{8}' then "\\b"
    else if c == '\U{C}' then "\\f"
    else if c == '\n' then "\\n"
    else if c == '\r' then "\\r"
    else if c == '\t' then "\\t"
    else if c < ' ' || c == '<' || c == '>' || c == '&' || c == '\U{2028}' || c == '\U{2029}' then Unicode(c as int)
    else [c]
  }

  function EscapeAll(s: string): string {
    if s == "" then "" else Escape(s[0]) + EscapeAll(s[1..])
  }

  function Quote(s: string): string {
    "\"" + EscapeAll(s) + "\""
  }

  /** A character that is written as itself. */
  predicate Plain(c: char) {
    && c >= ' ' && c != '"' && c != '\\'
    && c != '<' && c != '>' && c != '&' && c != '\U{2028}' && c != '\U{2029}'
  }

  ghost predicate AllPlain(s: string) {
    forall i :: 0 <= i < |s| ==> Plain(s[i])
  }

  /** Plain text is written as it is. */
  lemma {:induction false} PlainIsKept(s: string)
    requires AllPlain(s)
    ensures EscapeAll(s) == s
  {
    if s != "" {
      PlainIsKept(s[1..]);
    }
  }

  /** Nothing else is: what stands for a character begins with a backslash unless it is
      plain, and has no control character, none of the characters with a meaning in HTML and
      no line separator in it. */
  lemma EscapeIsSafe(c: char, i: nat)
    requires i < |Escape(c)|
    ensures Escape(c)[i] >= ' ' && Escape(c)[i] !in {'<', '>', '&', '\U{2028}', '\U{2029}'}
    ensures if Plain(c) then Escape(c) == [c] else |Escape(c)| > 1 && Escape(c)[0] == '\\'
    ensures |Escape(c)| == 2 <==> c in {'"', '\\', '\U{8}', '\U{C}', '\n', '\r', '\t'}
  {
    if c < ' ' || c == '<' || c == '>' || c == '&' || c == '\U{2028}' || c == '\U{2029}' {
      var n := c as int;
      HexIsPlain(n / 0x1000);
      HexIsPlain(n / 0x100 % 0x10);
      HexIsPlain(n / 0x10 % 0x10);
      HexIsPlain(n % 0x10);
    }
  }

  lemma HexIsPlain(d: int)
    requires 0 <= d < 16
    ensures Plain(HexDigit(d))
  {
  }

  // ---------------------------------------------------------------- reading strings

  function HexValue(c: char): Option<int> {
    if '0' <= c <= '9' then Some(c as int - '0' as int)
    else if 'a' <= c <= 'f' then Some(c as int - 'a' as int + 10)
    else if 'A' <= c <= 'F' then Some(c as int - 'A' as int + 10)
    else None
  }

  /** The value of a \uXXXX escape at the start of the text. */
  function ReadUnicode(text: string): (r: Option<int>)
    ensures r.Some? ==> |text| >= 6 && 0 <= r.value < 0x10000
  {
    if |text| < 6 || text[0] != '\\' || text[1] != 'u' then None
    else
      var a, b, c, d := HexValue(text[2]), HexValue(text[3]), HexValue(text[4]), HexValue(text[5]);
      if a.None? || b.None? || c.None? || d.None? then None
      else Some(a.value * 0x1000 + b.value * 0x100 + c.value * 0x10 + d.value)
  }

  predicate IsSurrogate(n: int) {
    0xD800 <= n < 0xE000
  }

  /** The character that an escape at the start of the text stands for, and how much of
      the text it takes. Surrogates count only in pairs. */
  function ReadEscape(text: string): (r: Option<(char, nat)>)
    ensures r.Some? ==> 0 < r.value.1 <= |text|
  {
    if |text| < 2 || text[0] != '\\' then None
    else
      match text[1]
      case '"' => Some(('"', 2))
      case '\\' => Some(('\\', 2))
      case '/' => Some(('/', 2))
      case 'b' => Some(('\U{8}', 2))
      case 'f' => Some(('\U{C}', 2))
      case 'n' => Some(('\n', 2))
      case 'r' => Some(('\r', 2))
      case 't' => Some(('\t', 2))
      case _ =>
        var n := ReadUnicode(text);
        if n.None? then None
        else if !IsSurrogate(n.value) then Some((n.value as char, 6))
        else
          var low := ReadUnicode(text[6..]);
          if n.value < 0xDC00 && low.Some? && 0xDC00 <= low.value < 0xE000 then
            Some(((0x10000 + (n.value - 0xD800) * 0x400 + (low.value - 0xDC00)) as char, 12))
          else Some(('\U{FFFD}', 6))
  }

  /** Reads up to the closing quote; yields the string and the text after the quote. */
  function ReadString(text: string): (r: Option<(string, string)>)
    ensures r.Some? ==> |r.value.1| < |text|
  {
    if text == "" then None
    else if text[0] == '"' then Some(("", text[1..]))
    else if text[0] < ' ' then None
    else
      var c := if text[0] == '\\' then ReadEscape(text) else Some((text[0], 1));
      if c.None? then None
      else
        var rest := ReadString(text[c.value.1..]);
        if rest.None? then None else Some(([c.value.0] + rest.value.0, rest.value.1))
  }

  lemma HexRoundTrip(d: int)
    requires 0 <= d < 16
    ensures HexValue(HexDigit(d)) == Some(d)
  {
  }

  lemma HexGroups(n: nat)
    ensures n == n / 0x1000 * 0x1000 + n / 0x100 % 0x10 * 0x100 + n / 0x10 % 0x10 * 0x10 + n % 0x10
  {
    assert n / 0x100 == n / 0x10 / 0x10;
    assert n / 0x1000 == n / 0x100 / 0x10;
  }

  lemma UnicodeRoundTrip(n: int, rest: string)
    requires 0 <= n < 0x10000
    ensures ReadUnicode(Unicode(n) + rest) == Some(n)
  {
    var text := Unicode(n) + rest;
    assert forall i :: 0 <= i < 6 ==> text[i] == Unicode(n)[i];
    HexRoundTrip(n / 0x1000);
    HexRoundTrip(n / 0x100 % 0x10);
    HexRoundTrip(n / 0x10 % 0x10);
    HexRoundTrip(n % 0x10);
    HexGroups(n);
  }

  lemma EscapeRoundTrip(c: char, rest: string)
    ensures var text := Escape(c) + rest;
            && text[0] != '"' && text[0] >= ' '
            && (if text[0] == '\\' then ReadEscape(text) else Some((text[0], 1))) == Some((c, |Escape(c)|))
  {
    if c < ' ' || c == '<' || c == '>' || c == '&' || c == '\U{2028}' || c == '\U{2029}' {
      UnicodeRoundTrip(c as int, rest);
    }
  }

  /** Every string is recovered from its quoted form. */
  lemma {:induction false} QuoteRoundTrip(s: string, rest: string)
    ensures ReadString(EscapeAll(s) + "\"" + rest) == Some((s, rest))
  {
    var text := EscapeAll(s) + "\"" + rest;
    if s == "" {
      assert text[1..] == rest;
    } else {
      var tail := EscapeAll(s[1..]) + "\"" + rest;
      assert text == Escape(s[0]) + tail;
      EscapeRoundTrip(s[0], tail);
      assert text[|Escape(s[0])|..] == tail;
      QuoteRoundTrip(s[1..], rest);
      assert s == [s[0]] + s[1..];
    }
  }

  // ---------------------------------------------------------------- the object

  /** The two string fields of the stored handle. */
  datatype Stored = Stored(providerName: string, material: string)

  function Member(key: string, value: string): string {
    Quote(key) + ":" + Quote(value)
  }

  function Marshal(h: Stored): string {
    "{" + (Member("providerName", h.providerName) + ("," + (Member("opaque", h.material) + "}")))
  }

  predicate IsSpace(c: char) {
    c == ' ' || c == '\t' || c == '\n' || c == '\r'
  }

  function SkipSpace(text: string): (r: string)
    ensures |r| <= |text|
  {
    if text != "" && IsSpace(text[0]) then SkipSpace(text[1..]) else text
  }

  predicate StartsWith(text: string, c: char) {
    text != "" && text[0] == c
  }

  /** Reads `"key": "value"`; yields the two and the text after them. */
  function ReadMember(text: string): (r: Option<(string, string, string)>)
    ensures r.Some? ==> |r.value.2| < |text|
  {
    if !StartsWith(text, '"') then None
    else
      var key := ReadString(text[1..]);
      if key.None? then None
      else
        var colon := SkipSpace(key.value.1);
        if !StartsWith(colon, ':') then None
        else
          var quote := SkipSpace(colon[1..]);
          if !StartsWith(quote, '"') then None
          else
            var value := ReadString(quote[1..]);
            if value.None? then None else Some((key.value.0, value.value.0, value.value.1))
  }

  function Assign(h: Stored, key: string, value: string): Stored {
    if key == "providerName" then h.(providerName := value)
    else if key == "opaque" then h.(material := value)
    else h
  }

  /** Reads members up to the closing brace, later ones overriding earlier ones. */
  function ReadMembers(text: string, h: Stored): Option<(Stored, string)>
    decreases |text|
  {
    var member := ReadMember(SkipSpace(text));
    if member.None? then None
    else
      var h' := Assign(h, member.value.0, member.value.1);
      var rest := SkipSpace(member.value.2);
      if StartsWith(rest, ',') then ReadMembers(rest[1..], h')
      else if StartsWith(rest, '}') then Some((h', rest[1..]))
      else None
  }

  function Unmarshal(text: string): Option<Stored> {
    var open := SkipSpace(text);
    if !StartsWith(open, '{') then None
    else
      var body := SkipSpace(open[1..]);
      var r := if StartsWith(body, '}') then Some((Stored("", ""), body[1..]))
               else ReadMembers(body, Stored("", ""));
      if r.None? || SkipSpace(r.value.1) != "" then None else Some(r.value.0)
  }

  /** The pieces of a member, read one after the other. */
  lemma MemberPieces(a: string, key: string, d: string, value: string, rest: string)
    requires ReadString(a) == Some((key, ":" + ("\"" + d))) && ReadString(d) == Some((value, rest))
    ensures ReadMember("\"" + a) == Some((key, value, rest))
  {
    assert ("\"" + a)[1..] == a;
    assert (":" + ("\"" + d))[1..] == "\"" + d;
    assert ("\"" + d)[1..] == d;
  }

  lemma Regroup(q: string, a: string, b: string, c: string, rest: string)
    ensures q + a + q + b + (q + c + q) + rest == q + (a + q + (b + (q + (c + q + rest))))
  {
  }

  lemma MemberRoundTrip(key: string, value: string, rest: string)
    ensures ReadMember(Member(key, value) + rest) == Some((key, value, rest))
    ensures StartsWith(Member(key, value) + rest, '"')
  {
    var d := EscapeAll(value) + "\"" + rest;
    var a := EscapeAll(key) + "\"" + (":" + ("\"" + d));
    QuoteRoundTrip(key, ":" + ("\"" + d));
    QuoteRoundTrip(value, rest);
    MemberPieces(a, key, d, value, rest);
    Regroup("\"", EscapeAll(key), ":", EscapeAll(value), rest);
  }

  /** A member is followed by another one, */
  lemma MembersNext(key: string, value: string, rest: string, h: Stored)
    ensures ReadMembers(Member(key, value) + ("," + rest), h) == ReadMembers(rest, Assign(h, key, value))
  {
    MemberRoundTrip(key, value, "," + rest);
    assert ("," + rest)[1..] == rest;
  }

  /** or by the end of the object. */
  lemma MembersEnd(key: string, value: string, h: Stored)
    ensures ReadMembers(Member(key, value) + "}", h) == Some((Assign(h, key, value), ""))
  {
    MemberRoundTrip(key, value, "}");
    assert "}"[1..] == "";
  }

  lemma ObjectBody(body: string, h: Stored)
    requires StartsWith(body, '"') && ReadMembers(body, Stored("", "")) == Some((h, ""))
    ensures Unmarshal("{" + body) == Some(h)
  {
    assert ("{" + body)[1..] == body;
  }

  lemma PlainMember(key: string, value: string)
    requires AllPlain(key) && AllPlain(value)
    ensures Member(key, value) == "\"" + key + "\":\"" + value + "\""
  {
    PlainIsKept(key);
    PlainIsKept(value);
    assert "\"" + ":" + "\"" == "\":\"";
  }

  /** The text of a stored handle whose fields are plain. */
  lemma PlainText(h: Stored)
    requires AllPlain(h.providerName) && AllPlain(h.material)
    ensures var provider := "\"" + "providerName" + "\":\"" + h.providerName + "\"";
            var material := "\"" + "opaque" + "\":\"" + h.material + "\"";
            Marshal(h) == "{" + (provider + ("," + (material + "}")))
  {
    PlainNames();
    PlainMember("providerName", h.providerName);
    PlainMember("opaque", h.material);
  }

  lemma PlainNames()
    ensures AllPlain("providerName") && AllPlain("opaque")
  {
  }

  /** `rest` is what is left of `text` after some of it has been read. */
  ghost predicate Leaves(text: string, rest: string) {
    |rest| <= |text| && text[|text| - |rest|..] == rest
  }

  lemma LeavesLess(text: string, rest: string, end: string)
    requires Leaves(text, rest) && Leaves(rest, end)
    ensures Leaves(text, end)
  {
    assert rest[|rest| - |end|..] == text[|text| - |end|..];
  }

  lemma {:induction false} SkipLeaves(text: string)
    ensures Leaves(text, SkipSpace(text))
    ensures forall i :: 0 <= i < |text| - |SkipSpace(text)| ==> IsSpace(text[i])
  {
    if text != "" && SkipSpace(text) != text {
      SkipLeaves(text[1..]);
      assert forall i :: 1 <= i < |text| ==> text[i] == text[1..][i - 1];
    }
  }

  lemma {:induction false} StringLeaves(text: string)
    requires ReadString(text).Some?
    ensures Leaves(text, ReadString(text).value.1)
  {
    if text[0] != '"' {
      var c := if text[0] == '\\' then ReadEscape(text) else Some((text[0], 1));
      var rest := text[c.value.1..];
      StringLeaves(rest);
      LeavesLess(text, rest, ReadString(rest).value.1);
    }
  }

  /** Reading on: one character, space, or a string. */
  lemma ReadOn(text: string, rest: string)
    requires Leaves(text, rest)
    ensures rest != "" ==> Leaves(text, rest[1..])
    ensures Leaves(text, SkipSpace(rest))
    ensures ReadString(rest).Some? ==> Leaves(text, ReadString(rest).value.1)
  {
    if rest != "" {
      LeavesLess(text, rest, rest[1..]);
    }
    SkipLeaves(rest);
    LeavesLess(text, rest, SkipSpace(rest));
    if ReadString(rest).Some? {
      StringLeaves(rest);
      LeavesLess(text, rest, ReadString(rest).value.1);
    }
  }

  /** A member is a key and a value, each a string in quotes, with a colon between. */
  lemma MemberParts(text: string) returns (key: string, colon: string, quote: string)
    requires ReadMember(text).Some?
    ensures text != "" && ReadString(text[1..]).Some? && key == ReadString(text[1..]).value.1
    ensures colon == SkipSpace(key) && colon != "" && quote == SkipSpace(colon[1..]) && quote != ""
    ensures ReadString(quote[1..]).Some? && ReadMember(text).value.2 == ReadString(quote[1..]).value.1
  {
    key := ReadString(text[1..]).value.1;
    colon := SkipSpace(key);
    quote := SkipSpace(colon[1..]);
  }

  lemma MemberLeaves(text: string)
    requires ReadMember(text).Some?
    ensures Leaves(text, ReadMember(text).value.2)
  {
    var key, colon, quote := MemberParts(text);
    ReadOn(text, text);
    ReadOn(text, text[1..]);
    ReadOn(text, key);
    ReadOn(text, colon);
    ReadOn(text, colon[1..]);
    ReadOn(text, quote);
    ReadOn(text, quote[1..]);
  }

  lemma SpacedMemberLeaves(text: string)
    requires ReadMember(SkipSpace(text)).Some?
    ensures Leaves(text, SkipSpace(ReadMember(SkipSpace(text)).value.2))
  {
    var open := SkipSpace(text);
    var end := ReadMember(open).value.2;
    SkipLeaves(text);
    MemberLeaves(open);
    LeavesLess(text, open, end);
    SkipLeaves(end);
    LeavesLess(text, end, SkipSpace(end));
  }

  lemma {:induction false} MembersLeave(text: string, h: Stored)
    requires ReadMembers(text, h).Some?
    ensures Leaves(text, "}" + ReadMembers(text, h).value.1)
    decreases |text|
  {
    var member := ReadMember(SkipSpace(text)).value;
    var rest := SkipSpace(member.2);
    SpacedMemberLeaves(text);
    if StartsWith(rest, ',') {
      var h' := Assign(h, member.0, member.1);
      MembersLeave(rest[1..], h');
      LeavesLess(text, rest, rest[1..]);
      LeavesLess(text, rest[1..], "}" + ReadMembers(rest[1..], h').value.1);
    } else {
      assert rest == "}" + rest[1..];
    }
  }

  /** What is read is an opening brace, some text, a closing brace, and the rest. */
  lemma ObjectLeaves(text: string) returns (rest: string)
    requires Unmarshal(text).Some?
    ensures StartsWith(SkipSpace(text), '{') && Leaves(SkipSpace(text)[1..], "}" + rest) && SkipSpace(rest) == ""
  {
    var open := SkipSpace(text);
    var body := SkipSpace(open[1..]);
    SkipLeaves(open[1..]);
    if StartsWith(body, '}') {
      rest := body[1..];
      assert body == "}" + rest;
    } else {
      rest := ReadMembers(body, Stored("", "")).value.1;
      MembersLeave(body, Stored("", ""));
      LeavesLess(open[1..], body, "}" + rest);
    }
  }

  /** `text` has an opening brace at `i` and a closing one at `j`, and space around them. */
  ghost predicate Enclosed(text: string, i: nat, j: nat) {
    && i < j < |text| && text[i] == '{' && text[j] == '}'
    && (forall k :: 0 <= k < i ==> IsSpace(text[k]))
    && (forall k :: j < k < |text| ==> IsSpace(text[k]))
  }

  /** Only an object is read, with nothing but space around it. */
  lemma ReadsOnlyObjects(text: string)
    ensures Unmarshal(text).Some? ==> exists i: nat, j: nat :: Enclosed(text, i, j)
  {
    if Unmarshal(text).Some? {
      var open := SkipSpace(text);
      var rest := ObjectLeaves(text);
      SkipLeaves(text);
      LeavesLess(text, open, open[1..]);
      LeavesLess(text, open[1..], "}" + rest);
      SkipLeaves(rest);
      Encloses(text, open, rest);
    }
  }

  lemma Encloses(text: string, open: string, rest: string)
    requires Leaves(text, open) && StartsWith(open, '{') && |rest| + 1 < |open|
    requires Leaves(text, "}" + rest)
    requires forall k :: 0 <= k < |text| - |open| ==> IsSpace(text[k])
    requires forall k :: 0 <= k < |rest| ==> IsSpace(rest[k])
    ensures Enclosed(text, |text| - |open|, |text| - |rest| - 1)
  {
    var j := |text| - |rest| - 1;
    assert text[j..] == "}" + rest;
    assert forall k :: j < k < |text| ==> text[k] == text[j..][k - j];
    assert text[|text| - |open|..][0] == open[0];
  }

  /** Every stored handle is recovered from its JSON text. */
  lemma RoundTrip(h: Stored)
    ensures Unmarshal(Marshal(h)) == Some(h)
  {
    var last := Member("opaque", h.material) + "}";
    MemberRoundTrip("providerName", h.providerName, "," + last);
    MembersNext("providerName", h.providerName, last, Stored("", ""));
    MembersEnd("opaque", h.material, Stored(h.providerName, ""));
    ObjectBody(Member("providerName", h.providerName) + ("," + last), h);
  }
}
