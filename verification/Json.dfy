/** The JSON reader of the server as functions on what is left of the text. A character stands for the
    byte of the same code. */
module Json {
  import opened Bytes

  datatype Json =
    | Null
    | Bool(b: bool)
    | Int(n: int)
    | Str(s: string)
    | Arr(items: seq<Json>)
    | Obj(fields: map<string, Json>)

  /** What a reader found and the text after it; Bad stands for the exception. */
  datatype Parsed<+T> = Ok(value: T, rest: string) | Bad

  predicate IsSpace(c: char) { c == ' ' || '\t' <= c <= '\r' }

  predicate IsDigit(c: char) { '0' <= c <= '9' }

  predicate Starts(s: string, c: char) { s != [] && s[0] == c }

  function SkipSpace(s: string): (r: string)
    ensures |r| <= |s| && (r != [] ==> !IsSpace(r[0]))
  {
    if s != [] && IsSpace(s[0]) then SkipSpace(s[1..]) else s
  }

  function Keyword(s: string, word: string, value: Json): (r: Parsed<Json>)
    requires word != []
    ensures r.Ok? ==> |r.rest| < |s|
  {
    if word <= s then Ok(value, s[|word|..]) else Bad
  }

  // ---------------------------------------------------------------- strings

  function HexValue(c: char): (v: int)
    ensures -1 <= v < 16
  {
    if '0' <= c <= '9' then c as int - '0' as int
    else if 'a' <= c <= 'f' then 10 + c as int - 'a' as int
    else if 'A' <= c <= 'F' then 10 + c as int - 'A' as int
    else -1
  }

  predicate IsHex(s: string) { forall c <- s :: HexValue(c) >= 0 }

  /** The one to three bytes of the UTF-8 form; the parts are disjoint bit fields, so | is +. */
  function Utf8(codepoint: nat): string
    requires codepoint < 0x1_0000
  {
    if codepoint <= 0x7F then [codepoint as char]
    else if codepoint <= 0x7FF then [(0xC0 + codepoint / 64) as char, (0x80 + codepoint % 64) as char]
    else [(0xE0 + codepoint / 4096) as char, (0x80 + codepoint / 64 % 64) as char, (0x80 + codepoint % 64) as char]
  }

  function Codepoint(h: string): (n: nat)
    requires |h| == 4 && IsHex(h)
    ensures n < 0x1_0000
  {
    ((HexValue(h[0]) * 16 + HexValue(h[1])) * 16 + HexValue(h[2])) * 16 + HexValue(h[3])
  }

  /** The character an escape letter stands for, except u. */
  function Unescaped(c: char): string {
    if c == '"' || c == '\\' || c == '/' then [c]
    else if c == 'b' then "\U{0008}"
    else if c == 'f' then "\U{000C}"
    else if c == 'n' then "\n"
    else if c == 'r' then "\r"
    else if c == 't' then "\t"
    else ""
  }

  /** A string literal after its opening quote; result is what was collected so far. */
  function StringBody(s: string, result: string): (r: Parsed<string>)
    ensures r.Ok? ==> |r.rest| < |s|
    decreases |s|
  {
    if s == [] then Bad
    else if s[0] == '"' then Ok(result, s[1..])
    else if s[0] != '\\' then StringBody(s[1..], result + [s[0]])
    else if |s| < 2 then Bad
    else if s[1] == 'u' then
      if |s| < 6 || !IsHex(s[2..6]) then Bad else StringBody(s[6..], result + Utf8(Codepoint(s[2..6])))
    else if Unescaped(s[1]) == "" then Bad
    else StringBody(s[2..], result + Unescaped(s[1]))
  }

  function ParseString(s: string): (r: Parsed<string>)
    ensures r.Ok? ==> |r.rest| < |s|
  {
    if Starts(s, '"') then StringBody(s[1..], "") else Bad
  }

  // ---------------------------------------------------------------- integers

  /** How many digits a text starts with. */
  function DigitCount(s: string): (n: nat)
    ensures n <= |s| && (forall i :: 0 <= i < n ==> IsDigit(s[i])) && (n < |s| ==> !IsDigit(s[n]))
  {
    if s != [] && IsDigit(s[0]) then 1 + DigitCount(s[1..]) else 0
  }

  function DigitValue(c: char): nat
    requires IsDigit(c)
  {
    c as int - '0' as int
  }

  function NumberOf(digits: string): nat
    requires forall c <- digits :: IsDigit(c)
  {
    if digits == [] then 0
    else
      assert forall c <- digits[..|digits| - 1] :: c in digits;
      assert digits[|digits| - 1] in digits && IsDigit(digits[|digits| - 1]);
      NumberOf(digits[..|digits| - 1]) * 10 + DigitValue(digits[|digits| - 1])
  }

  /** A 64-bit signed integer from its sign and digits; an empty run of digits and an overflow are errors. */
  function Signed(negative: bool, digits: string): Option<int>
    requires forall c <- digits :: IsDigit(c)
  {
    var magnitude: int := NumberOf(digits);
    if digits == "" || magnitude > 0x7FFF_FFFF_FFFF_FFFF + (if negative then 1 else 0) then None
    else Some(if negative then -magnitude else magnitude)
  }

  function ParseInteger(s: string): (r: Parsed<Json>)
    ensures r.Ok? ==> |r.rest| < |s|
  {
    var negative := Starts(s, '-');
    var t := if negative then s[1..] else s;
    var n := DigitCount(t);
    var value := Signed(negative, t[..n]);
    if value == None then Bad else Ok(Int(value.value), t[n..])
  }

  // ---------------------------------------------------------------- values

  function ParseValue(s: string): (r: Parsed<Json>)
    ensures r.Ok? ==> |r.rest| < |s|
    decreases |s|, 1
  {
    var t := SkipSpace(s);
    if t == [] then Bad
    else if t[0] == '{' then
      var u := SkipSpace(t[1..]);
      if Starts(u, '}') then Ok(Obj(map[]), u[1..]) else ParseMembers(u, map[])
    else if t[0] == '[' then
      var u := SkipSpace(t[1..]);
      if Starts(u, ']') then Ok(Arr([]), u[1..]) else ParseItems(u, [])
    else if t[0] == '"' then
      var p := ParseString(t);
      if p.Ok? then Ok(Str(p.value), p.rest) else Bad
    else if t[0] == 't' then Keyword(t, "true", Bool(true))
    else if t[0] == 'f' then Keyword(t, "false", Bool(false))
    else if t[0] == 'n' then Keyword(t, "null", Null)
    else if t[0] == '-' || IsDigit(t[0]) then ParseInteger(t)
    else Bad
  }

  function ParseMember(s: string): (r: Parsed<(string, Json)>)
    ensures r.Ok? ==> |r.rest| < |s|
    decreases |s|, 0
  {
    var key := ParseString(SkipSpace(s));
    if key == Bad || !Starts(SkipSpace(key.rest), ':') then Bad
    else
      var value := ParseValue(SkipSpace(SkipSpace(key.rest)[1..]));
      if value == Bad then Bad else Ok((key.value, value.value), value.rest)
  }

  /** Members up to the closing brace; of members with the same name the first one counts. */
  function ParseMembers(s: string, members: map<string, Json>): (r: Parsed<Json>)
    ensures r.Ok? ==> |r.rest| < |s|
    decreases |s|, 1
  {
    var member := ParseMember(s);
    if member == Bad then Bad
    else
      var grown := Emplaced(members, member.value.0, member.value.1);
      var t := SkipSpace(member.rest);
      if Starts(t, '}') then Ok(Obj(grown), t[1..])
      else if Starts(t, ',') then ParseMembers(t[1..], grown)
      else Bad
  }

  function Emplaced(members: map<string, Json>, key: string, value: Json): map<string, Json> {
    if key in members then members else members[key := value]
  }

  function ParseItems(s: string, items: seq<Json>): (r: Parsed<Json>)
    ensures r.Ok? ==> |r.rest| < |s|
    decreases |s|, 2
  {
    var value := ParseValue(SkipSpace(s));
    if value == Bad then Bad
    else
      var grown := items + [value.value];
      var t := SkipSpace(value.rest);
      if Starts(t, ']') then Ok(Arr(grown), t[1..])
      else if Starts(t, ',') then ParseItems(t[1..], grown)
      else Bad
  }

  predicate HasByteOrderMark(text: string) {
    |text| >= 3 && text[0] as int == 0xEF && text[1] as int == 0xBB && text[2] as int == 0xBF
  }

  /** A whole document, after an optional byte-order mark. */
  function Parse(text: string): Parsed<Json> {
    var p := ParseValue(SkipSpace(if HasByteOrderMark(text) then text[3..] else text));
    if p.Ok? && SkipSpace(p.rest) == "" then Ok(p.value, "") else Bad
  }
}
