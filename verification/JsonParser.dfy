/** The recursive-descent JSON parser: one position moving through the text. */
module JsonParsing {
  import opened Bytes
  import Json

  type Value = Json.Json

  /** What a parsing method returns, None being the exception, and where it stops. */
  predicate Agrees<T(==)>(r: Option<T>, p: Json.Parsed<T>, rest: string) {
    r.Some? == p.Ok? && (p.Ok? ==> r.value == p.value && rest == p.rest)
  }

  class JsonParser {
    const text: string
    var pos: nat

    ghost predicate Valid()
      reads this
    {
      pos <= |text|
    }

    ghost function Rest(): string
      requires Valid()
      reads this
    {
      text[pos..]
    }

    constructor (text: string)
      ensures Valid() && this.text == text && pos == 0 && Rest() == text
    {
      this.text := text;
      pos := 0;
    }

    method Parse() returns (r: Option<Value>)
      requires Valid()
      modifies this`pos
      ensures Valid()
      ensures var p := Json.ParseValue(Json.SkipSpace(old(Rest())));
              r == if p.Ok? && Json.SkipSpace(p.rest) == "" then Some(p.value) else None
    {
      SkipWhitespace();
      r := ParseValue();
      if r.Some? {
        SkipWhitespace();
        if pos != |text| {
          r := None;
        }
      }
    }

    method Advance()
      requires Valid() && Rest() != ""
      modifies this`pos
      ensures Valid() && Rest() == old(Rest())[1..] && pos == old(pos) + 1
    {
      pos := pos + 1;
    }

    method SkipWhitespace()
      requires Valid()
      modifies this`pos
      ensures Valid() && Rest() == Json.SkipSpace(old(Rest())) && old(pos) <= pos
    {
      while pos < |text| && Json.IsSpace(text[pos])
        invariant Valid() && old(pos) <= pos && Json.SkipSpace(Rest()) == Json.SkipSpace(old(Rest()))
      {
        Advance();
      }
    }

    method Expect(c: char) returns (ok: bool)
      requires Valid()
      modifies this`pos
      ensures Valid() && ok == Json.Starts(old(Rest()), c)
      ensures if ok then Rest() == old(Rest())[1..] && pos == old(pos) + 1 else pos == old(pos)
    {
      ok := pos < |text| && text[pos] == c;
      if ok {
        Advance();
      }
    }

    method Peek(c: char) returns (yes: bool)
      requires Valid()
      ensures yes == Json.Starts(Rest(), c)
    {
      yes := pos < |text| && text[pos] == c;
    }

    method ExpectKeyword(word: string, value: Value) returns (r: Option<Value>)
      requires Valid() && word != ""
      modifies this`pos
      ensures Valid() && old(pos) <= pos && Agrees(r, Json.Keyword(old(Rest()), word, value), Rest())
    {
      r := None;
      if word <= text[pos..] {
        pos := pos + |word|;
        r := Some(value);
      }
    }

    // -------------------------------------------------------------- strings

    method ParseString() returns (r: Option<string>)
      requires Valid()
      modifies this`pos
      ensures Valid() && old(pos) <= pos && Agrees(r, Json.ParseString(old(Rest())), Rest())
    {
      var ok := Expect('"');
      if !ok {
        return None;
      }
      ghost var goal := Json.StringBody(Rest(), "");
      var result := "";
      while pos < |text|
        invariant Valid() && old(pos) < pos && Json.StringBody(Rest(), result) == goal
      {
        var c := text[pos];
        ghost var s := Rest();
        Advance();
        if c == '"' {
          return Some(result);
        }
        if c == '\\' {
          assert s == "\\" + Rest();
          var piece := EscapeSequence();
          assert (if piece == None then Json.Bad else Json.StringBody(Rest(), result + piece.value)) ==
              Json.StringBody(s, result);
          if piece == None {
            return None;
          }
          result := result + piece.value;
        } else {
          result := result + [c];
        }
      }
      return None;
    }

    /** What follows a backslash. */
    method EscapeSequence() returns (r: Option<string>)
      requires Valid()
      modifies this`pos
      ensures Valid() && old(pos) <= pos && (r.Some? ==> old(pos) < pos)
      ensures forall result :: (if r == None then Json.Bad else Json.StringBody(Rest(), result + r.value)) ==
                               Json.StringBody("\\" + old(Rest()), result)
    {
      ghost var s := "\\" + Rest();
      assert s[1..] == Rest();
      if pos >= |text| {
        return None;
      }
      var c := text[pos];
      Advance();
      assert s[2..] == Rest() && s[1] == c;
      if c == 'u' {
        r := UnicodeEscape();
        assert |s| >= 6 ==> s[2..6] == s[2..][..4] && s[6..] == s[2..][4..];
      } else {
        r := if Json.Unescaped(c) == "" then None else Some(Json.Unescaped(c));
      }
    }

    method UnicodeEscape() returns (r: Option<string>)
      requires Valid()
      modifies this`pos
      ensures Valid() && old(pos) <= pos
      ensures r.Some? <==> |old(Rest())| >= 4 && Json.IsHex(old(Rest())[..4])
      ensures r.Some? ==> Rest() == old(Rest())[4..] && r.value == Json.Utf8(Json.Codepoint(old(Rest())[..4]))
    {
      if pos + 4 > |text| {
        return None;
      }
      ghost var h := Rest()[..4];
      var codepoint := 0;
      for i := 0 to 4
        invariant pos == old(pos) + i && pos <= |text|
        invariant Json.IsHex(h[..i]) && codepoint == HexNumber(h[..i])
      {
        var c := text[pos];
        assert h[..i + 1][..i] == h[..i] && h[i] == c && h[i] in h;
        pos := pos + 1;
        var digit := Json.HexValue(c);
        if digit < 0 {
          assert !Json.IsHex(h);
          return None;
        }
        codepoint := codepoint * 16 + digit;
        assert forall d <- h[..i + 1] :: d in h[..i] || d == c;
      }
      assert h[..4] == h;
      HexNumberOfFour(h);
      r := Some(Json.Utf8(codepoint));
    }

    // -------------------------------------------------------------- integers

    method ParseInteger() returns (r: Option<Value>)
      requires Valid() && Rest() != ""
      modifies this`pos
      ensures Valid() && old(pos) <= pos && Agrees(r, Json.ParseInteger(old(Rest())), Rest())
    {
      var negative := text[pos] == '-';
      if negative {
        Advance();
      }
      var token := TakeDigits();
      var value := FromChars(negative, token);
      r := if value == None then None else Some(Json.Int(value.value));
    }

    method TakeDigits() returns (token: string)
      requires Valid()
      modifies this`pos
      ensures Valid() && old(pos) <= pos
      ensures var s := old(Rest()); token == s[..Json.DigitCount(s)] && Rest() == s[Json.DigitCount(s)..]
    {
      var start := pos;
      ghost var s := Rest();
      while pos < |text| && Json.IsDigit(text[pos])
        invariant start <= pos <= |text| && pos - start + Json.DigitCount(Rest()) == Json.DigitCount(s)
      {
        Advance();
      }
      token := text[start..pos];
    }

    method ParseValue() returns (r: Option<Value>)
      requires Valid()
      modifies this`pos
      ensures Valid() && old(pos) <= pos && (r.Some? ==> old(pos) < pos)
      ensures Agrees(r, Json.ParseValue(old(Rest())), Rest())
      decreases |text| - pos, 1
    {
      SkipWhitespace();
      if pos >= |text| {
        return None;
      }
      ghost var t := Rest();
      var c := text[pos];
      if c == '{' {
        r := ParseObject();
      } else if c == '[' {
        r := ParseArray();
      } else if c == '"' {
        var s := ParseString();
        r := if s == None then None else Some(Json.Str(s.value));
      } else if c == 't' {
        r := ExpectKeyword("true", Json.Bool(true));
      } else if c == 'f' {
        r := ExpectKeyword("false", Json.Bool(false));
      } else if c == 'n' {
        r := ExpectKeyword("null", Json.Null);
      } else if c == '-' || Json.IsDigit(c) {
        r := ParseInteger();
      } else {
        r := None;
      }
    }

    method ParseObject() returns (r: Option<Value>)
      requires Valid() && Json.Starts(Rest(), '{')
      modifies this`pos
      ensures Valid() && old(pos) < pos && Agrees(r, Json.ParseValue(old(Rest())), Rest())
      decreases |text| - pos, 0
    {
      Advance();
      SkipWhitespace();
      var closed := Expect('}');
      if closed {
        return Some(Json.Obj(map[]));
      }
      var members: map<string, Value> := map[];
      ghost var goal := Json.ParseMembers(Rest(), members);
      while true
        invariant Valid() && old(pos) < pos && Json.ParseMembers(Rest(), members) == goal
        decreases |text| - pos
      {
        var member := ParseMember();
        if member == None {
          return None;
        }
        members := Json.Emplaced(members, member.value.0, member.value.1);
        SkipWhitespace();
        var last := Expect('}');
        if last {
          return Some(Json.Obj(members));
        }
        var more := Expect(',');
        if !more {
          return None;
        }
      }
    }

    method ParseMember() returns (r: Option<(string, Value)>)
      requires Valid()
      modifies this`pos
      ensures Valid() && old(pos) <= pos && Agrees(r, Json.ParseMember(old(Rest())), Rest())
      decreases |text| - pos, 2
    {
      SkipWhitespace();
      var key := ParseString();
      if key == None {
        return None;
      }
      SkipWhitespace();
      var colon := Expect(':');
      if !colon {
        return None;
      }
      SkipWhitespace();
      var value := ParseValue();
      r := if value == None then None else Some((key.value, value.value));
    }

    method ParseArray() returns (r: Option<Value>)
      requires Valid() && Json.Starts(Rest(), '[')
      modifies this`pos
      ensures Valid() && old(pos) < pos && Agrees(r, Json.ParseValue(old(Rest())), Rest())
      decreases |text| - pos, 0
    {
      Advance();
      SkipWhitespace();
      var closed := Expect(']');
      if closed {
        return Some(Json.Arr([]));
      }
      var items: seq<Value> := [];
      ghost var goal := Json.ParseItems(Rest(), items);
      while true
        invariant Valid() && old(pos) < pos && Json.ParseItems(Rest(), items) == goal
        decreases |text| - pos
      {
        SkipWhitespace();
        var value := ParseValue();
        if value == None {
          return None;
        }
        items := items + [value.value];
        SkipWhitespace();
        var last := Expect(']');
        if last {
          return Some(Json.Arr(items));
        }
        var more := Expect(',');
        if !more {
          return None;
        }
      }
    }
  }

  function HexNumber(h: string): (n: int)
    requires Json.IsHex(h)
  {
    if h == "" then 0
    else
      assert h[|h| - 1] in h && forall c <- h[..|h| - 1] :: c in h;
      HexNumber(h[..|h| - 1]) * 16 + Json.HexValue(h[|h| - 1])
  }

  lemma HexNumberOfFour(h: string)
    requires |h| == 4 && Json.IsHex(h)
    ensures HexNumber(h) == Json.Codepoint(h)
  {
    assert forall c <- h[..3] :: c in h;
    assert h[..3][..2] == h[..2] && h[..2][..1] == h[..1] && h[..1][..0] == "";
    assert forall c <- h[..2] :: c in h;
    assert forall c <- h[..1] :: c in h;
    assert HexNumber(h[..1]) == Json.HexValue(h[0]);
    assert HexNumber(h[..2]) == HexNumber(h[..1]) * 16 + Json.HexValue(h[1]);
    assert HexNumber(h[..3]) == HexNumber(h[..2]) * 16 + Json.HexValue(h[2]);
  }

  /** The conversion of a whole token to a 64-bit signed integer. */
  method FromChars(negative: bool, token: string) returns (value: Option<int>)
    requires forall c <- token :: Json.IsDigit(c)
    ensures value == Json.Signed(negative, token)
  {
    if token == "" {
      return None;
    }
    var magnitude := 0;
    for i := 0 to |token|
      invariant forall c <- token[..i] :: Json.IsDigit(c)
      invariant magnitude == Json.NumberOf(token[..i])
    {
      assert token[..i + 1][..i] == token[..i] && token[i] in token;
      assert forall c <- token[..i + 1] :: c in token;
      magnitude := magnitude * 10 + Json.DigitValue(token[i]);
    }
    assert token[..|token|] == token;
    if magnitude > 0x7FFF_FFFF_FFFF_FFFF + (if negative then 1 else 0) {
      return None;
    }
    value := Some(if negative then 0 - magnitude else magnitude);
  }

  /** The whole reader, byte-order mark included. */
  method ParseJson(text: string) returns (r: Option<Value>)
    ensures var p := Json.Parse(text); r == if p.Ok? then Some(p.value) else None
  {
    var parser := new JsonParser(if Json.HasByteOrderMark(text) then text[3..] else text);
    r := parser.Parse();
  }
}
