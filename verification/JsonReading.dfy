/** What the JSON reader makes of text the account database does not write itself: code points written as escapes,
    signed
    numbers, and the three keywords. */
module JsonReading {
  import opened Bytes
  import opened Json
  import opened JsonText

  // ---------------------------------------------------------------- code points

  type codepoint = n: nat | n < 0x1_0000 witness 0

  predicate IsTail(c: char) { 0x80 <= c as int < 0xC0 }

  /** The number in the low six bits of a continuation byte. */
  function TailBits(c: char): nat
    requires IsTail(c)
  {
    c as int - 0x80
  }

  /** The first code point of a UTF-8 text and how many bytes it takes, in the one form the encoding allows for it
      (section 3 of RFC 3629); the escapes of JSON reach three bytes. */
  function FirstCodepoint(s: string): Option<(codepoint, nat)> {
    if s == "" then None
    else if s[0] as int < 0x80 then Some((s[0] as int, 1))
    else if 0xC0 <= s[0] as int < 0xE0 then
      if |s| < 2 || !IsTail(s[1]) then None
      else
        var n := (s[0] as int - 0xC0) * 64 + TailBits(s[1]);
        if n < 0x80 then None else Some((n, 2))
    else if 0xE0 <= s[0] as int < 0xF0 then
      if |s| < 3 || !IsTail(s[1]) || !IsTail(s[2]) then None
      else
        var n := (s[0] as int - 0xE0) * 4096 + TailBits(s[1]) * 64 + TailBits(s[2]);
        if n < 0x800 then None else Some((n, 3))
    else None
  }

  function Decoded(s: string): Option<seq<codepoint>>
    decreases |s|
  {
    if s == "" then Some([])
    else
      var first := FirstCodepoint(s);
      if first == None || first.value.1 == 0 || first.value.1 > |s| then None
      else
        var later := Decoded(s[first.value.1..]);
        if later == None then None else Some([first.value.0] + later.value)
  }

  lemma Utf8Decodes(n: codepoint, rest: string)
    ensures FirstCodepoint(Utf8(n) + rest) == Some((n, |Utf8(n)|))
  {
    var u := Utf8(n);
    assert forall i :: 0 <= i < |u| ==> (u + rest)[i] == u[i];
    assert n / 4096 * 4096 + n / 64 % 64 * 64 + n % 64 == n;
  }

  function Utf8All(codepoints: seq<codepoint>): string {
    if codepoints == [] then "" else Utf8(codepoints[0]) + Utf8All(codepoints[1..])
  }

  lemma {:induction false} Utf8AllDecodes(codepoints: seq<codepoint>)
    ensures Decoded(Utf8All(codepoints)) == Some(codepoints)
  {
    if codepoints != [] {
      var first, later := Utf8(codepoints[0]), Utf8All(codepoints[1..]);
      Utf8Decodes(codepoints[0], later);
      Utf8AllDecodes(codepoints[1..]);
      assert (first + later)[|first|..] == later;
      assert [codepoints[0]] + codepoints[1..] == codepoints;
    }
  }

  // ---------------------------------------------------------------- escapes

  /** A hexadecimal digit in either case. */
  function HexChar(n: nat, upper: bool): char
    requires n < 16
  {
    if n < 10 then ('0' as int + n) as char
    else ((if upper then 'A' else 'a') as int + n - 10) as char
  }

  function HexText(n: codepoint, upper: bool): string {
    [HexChar(n / 4096, upper), HexChar(n / 256 % 16, upper), HexChar(n / 16 % 16, upper), HexChar(n % 16, upper)]
  }

  lemma HexReadsBack(n: codepoint, upper: bool)
    ensures IsHex(HexText(n, upper)) && Codepoint(HexText(n, upper)) == n
  {
    var h := HexText(n, upper);
    assert HexValue(h[0]) == n / 4096 && HexValue(h[1]) == n / 256 % 16;
    assert HexValue(h[2]) == n / 16 % 16 && HexValue(h[3]) == n % 16;
    Digits16(n);
  }

  lemma Digits16(n: nat)
    ensures ((n / 4096 * 16 + n / 256 % 16) * 16 + n / 16 % 16) * 16 + n % 16 == n
  {
    assert n / 16 / 16 == n / 256 && n / 256 / 16 == n / 4096;
  }

  function Escapes(codepoints: seq<codepoint>, upper: bool): string {
    if codepoints == [] then "" else "\\u" + HexText(codepoints[0], upper) + Escapes(codepoints[1..], upper)
  }

  lemma EscapeReads(n: codepoint, upper: bool, t: string, result: string)
    ensures StringBody("\\u" + HexText(n, upper) + t, result) == StringBody(t, result + Utf8(n))
  {
    var s := "\\u" + HexText(n, upper) + t;
    HexReadsBack(n, upper);
    assert s[0] == '\\' && s[1] == 'u' && s[2..6] == HexText(n, upper) && s[6..] == t;
  }

  lemma {:induction false} EscapesRead(codepoints: seq<codepoint>, upper: bool, rest: string, result: string)
    ensures StringBody(Escapes(codepoints, upper) + ("\"" + rest), result) == Ok(result + Utf8All(codepoints), rest)
  {
    if codepoints == [] {
      assert Escapes(codepoints, upper) + ("\"" + rest) == "\"" + rest && ("\"" + rest)[1..] == rest;
      assert result + "" == result;
    } else {
      var first, later := "\\u" + HexText(codepoints[0], upper), Escapes(codepoints[1..], upper);
      Regroup(first, later, "\"" + rest);
      EscapeReads(codepoints[0], upper, later + ("\"" + rest), result);
      EscapesRead(codepoints[1..], upper, rest, result + Utf8(codepoints[0]));
      Regroup(result, Utf8(codepoints[0]), Utf8All(codepoints[1..]));
    }
  }

  /** Text written as escapes, with digits of either case, is read as the UTF-8 text that decodes to it. */
  lemma EscapesReadBack(codepoints: seq<codepoint>, upper: bool, rest: string) returns (text: string)
    ensures ParseString("\"" + (Escapes(codepoints, upper) + ("\"" + rest))) == Ok(text, rest)
    ensures Decoded(text) == Some(codepoints)
  {
    text := Utf8All(codepoints);
    EscapesRead(codepoints, upper, rest, "");
    Utf8AllDecodes(codepoints);
    assert "" + text == text;
    var body := Escapes(codepoints, upper) + ("\"" + rest);
    assert ("\"" + body)[1..] == body;
  }

  // ---------------------------------------------------------------- signed numbers and keywords

  ghost predicate AreDigits(digits: string, n: nat) {
    digits != "" && (forall c <- digits :: IsDigit(c)) && NumberOf(digits) == n
  }

  lemma DigitsRead(digits: string, n: nat, rest: string)
    requires AreDigits(digits, n) && Ends(rest)
    ensures ParseInteger(digits + rest) == if n <= 0x7FFF_FFFF_FFFF_FFFF then Ok(Int(n), rest) else Bad
    ensures ParseInteger("-" + (digits + rest)) == if n <= 0x8000_0000_0000_0000 then Ok(Int(-(n as int)), rest)
            else Bad
    ensures IsDigit(digits[0])
  {
    var t := digits + rest;
    DigitCountIs(digits, rest);
    assert digits[0] in digits && t[0] == digits[0];
    assert t[..|digits|] == digits && t[|digits|..] == rest;
    assert ("-" + t)[1..] == t;
  }

  lemma IntegerIsChosen(s: string, value: Parsed<Json>)
    requires s != "" && (s[0] == '-' || IsDigit(s[0])) && ParseInteger(s) == value
    ensures ParseValue(s) == value
  {
    var c := s[0];
    assert !IsSpace(c) && c != '{' && c != '[' && c != '"' && c != 't' && c != 'f' && c != 'n';
    assert SkipSpace(s) == s;
  }

  /** A number printed with its sign is read back if it fits into 64 bits, and refused otherwise. */
  lemma SignedReadsBack(n: int, digits: string, rest: string)
    requires digits == Decimal(if n < 0 then -n else n) && Ends(rest)
    ensures ParseValue((if n < 0 then "-" else "") + (digits + rest)) ==
            if -0x8000_0000_0000_0000 <= n <= 0x7FFF_FFFF_FFFF_FFFF then Ok(Int(n), rest) else Bad
  {
    DecimalIsDigits(if n < 0 then -n else n);
    DigitsRead(digits, if n < 0 then -n else n, rest);
    assert "" + (digits + rest) == digits + rest;
    var s := (if n < 0 then "-" else "") + (digits + rest);
    IntegerIsChosen(s, ParseInteger(s));
  }

  lemma KeywordsReadBack(rest: string)
    ensures ParseValue("true" + rest) == Ok(Bool(true), rest)
    ensures ParseValue("false" + rest) == Ok(Bool(false), rest)
    ensures ParseValue("null" + rest) == Ok(Null, rest)
  {
    KeywordIsRead("true", rest, Bool(true));
    KeywordIsRead("false", rest, Bool(false));
    KeywordIsRead("null", rest, Null);
  }

  lemma KeywordIsRead(word: string, rest: string, value: Json)
    requires word != "" && !IsSpace(word[0])
    ensures SkipSpace(word + rest) == word + rest && Keyword(word + rest, word, value) == Ok(value, rest)
  {
    assert (word + rest)[|word|..] == rest;
  }
}
