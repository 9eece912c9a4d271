/** The layout the account database prints, and the proof that the JSON reader reads it back. */
module JsonText {
  import opened Bytes
  import opened Json

  /** A printed value: members in the order they are written. */
  datatype Doc = NullDoc | Number(n: u32) | Text(s: string) | List(items: seq<Doc>) | Record(members: seq<Member>)
  datatype Member = Member(key: string, doc: Doc)

  // ---------------------------------------------------------------- printing

  function HexDigit(n: nat): char
    requires n < 16
  {
    if n < 10 then ('0' as int + n) as char else ('a' as int + n - 10) as char
  }

  function EscapedChar(c: char): string {
    if c == '\\' then "\\\\"
    else if c == '"' then "\\\""
    else if c as int == 8 then "\\b"
    else if c as int == 12 then "\\f"
    else if c == '\n' then "\\n"
    else if c == '\r' then "\\r"
    else if c == '\t' then "\\t"
    else if c as int < 0x20 then "\\u00" + [HexDigit(c as int / 16), HexDigit(c as int % 16)]
    else [c]
  }

  function Escaped(s: string): string {
    if s == "" then "" else EscapedChar(s[0]) + Escaped(s[1..])
  }

  function Decimal(n: nat): (r: string)
    ensures r != ""
  {
    var last := ('0' as int + n % 10) as char;
    if n < 10 then [last] else Decimal(n / 10) + [last]
  }

  function Spaces(n: nat): string { seq(n, _ => ' ') }

  function Quoted(s: string): string { "\"" + Escaped(s) + "\"" }

  function KeyText(key: string): string { Quoted(key) + ": " }

  function Separator(last: bool): string { if last then "\n" else ",\n" }

  function Printed(d: Doc, indent: nat): string
    decreases d
  {
    match d
    case NullDoc => "null"
    case Number(n) => Decimal(n)
    case Text(s) => Quoted(s)
    case List(items) =>
      "[" + (if items == [] then "" else "\n") + PrintedItems(items, indent + 2) + Spaces(indent) + "]"
    case Record(members) =>
      if members == [] then "{}" else "{\n" + PrintedMembers(members, indent + 2) + Spaces(indent) + "}"
  }

  function PrintedItems(items: seq<Doc>, indent: nat): string
    decreases items
  {
    if items == [] then ""
    else Spaces(indent) + Printed(items[0], indent) + Separator(|items| == 1) + PrintedItems(items[1..], indent)
  }

  function PrintedMembers(members: seq<Member>, indent: nat): string
    decreases members
  {
    if members == [] then ""
    else
      Spaces(indent) + KeyText(members[0].key) + Printed(members[0].doc, indent) + Separator(|members| == 1) +
      PrintedMembers(members[1..], indent)
  }

  // ---------------------------------------------------------------- what a reader makes of a printed value

  function Value(d: Doc): Json
    decreases d
  {
    match d
    case NullDoc => Null
    case Number(n) => Int(n)
    case Text(s) => Str(s)
    case List(items) => Arr(Values(items))
    case Record(members) => Obj(Fields(members, map[]))
  }

  function Values(items: seq<Doc>): (r: seq<Json>)
    ensures |r| == |items|
    decreases items
  {
    if items == [] then [] else [Value(items[0])] + Values(items[1..])
  }

  function Fields(members: seq<Member>, before: map<string, Json>): map<string, Json>
    decreases members
  {
    if members == [] then before
    else Fields(members[1..], Emplaced(before, members[0].key, Value(members[0].doc)))
  }

  // ---------------------------------------------------------------- strings and numbers read back

  lemma ControlCharReadsBack(c: char, t: string, result: string)
    requires c as int < 0x20
    ensures StringBody("\\u00" + [HexDigit(c as int / 16), HexDigit(c as int % 16)] + t, result) ==
            StringBody(t, result + [c])
  {
    var s := "\\u00" + [HexDigit(c as int / 16), HexDigit(c as int % 16)] + t;
    var h := s[2..6];
    assert s[0] == '\\' && s[1] == 'u' && h[0] == '0' && h[1] == '0';
    assert HexValue(h[2]) == c as int / 16 && HexValue(h[3]) == c as int % 16;
    assert IsHex(h) && Codepoint(h) == c as int;
    assert s[6..] == t && Utf8(c as int) == [c];
  }

  lemma PairReadsBack(letter: char, c: char, t: string, result: string)
    requires letter != 'u' && Unescaped(letter) == [c]
    ensures StringBody(['\\', letter] + t, result) == StringBody(t, result + [c])
  {
    assert (['\\', letter] + t)[2..] == t;
  }

  lemma EscapedCharReadsBack(c: char, t: string, result: string)
    ensures StringBody(EscapedChar(c) + t, result) == StringBody(t, result + [c])
  {
    var e := EscapedChar(c);
    if |e| == 1 {
      assert (e + t)[1..] == t;
    } else if |e| == 2 {
      assert e == ['\\', e[1]] && Unescaped(e[1]) == [c];
      PairReadsBack(e[1], c, t, result);
    } else {
      ControlCharReadsBack(c, t, result);
    }
  }

  /** Reading a printed string gives it back, whatever its characters (section 7 of RFC 8259). */
  lemma {:induction false} EscapedReadsBack(s: string, rest: string, result: string)
    ensures StringBody(Escaped(s) + "\"" + rest, result) == Ok(result + s, rest)
  {
    if s == "" {
      assert Escaped(s) + "\"" + rest == "\"" + rest && result + s == result;
      assert ("\"" + rest)[1..] == rest;
    } else {
      assert Escaped(s) + "\"" + rest == EscapedChar(s[0]) + (Escaped(s[1..]) + "\"" + rest);
      assert result + [s[0]] + s[1..] == result + s;
      EscapedCharReadsBack(s[0], Escaped(s[1..]) + "\"" + rest, result);
      EscapedReadsBack(s[1..], rest, result + [s[0]]);
    }
  }

  lemma QuotedReadsBack(s: string, rest: string)
    ensures ParseString(Quoted(s) + rest) == Ok(s, rest)
  {
    assert (Quoted(s) + rest)[1..] == Escaped(s) + "\"" + rest;
    EscapedReadsBack(s, rest, "");
    assert "" + s == s;
  }

  lemma {:induction false} DecimalIsDigits(n: nat)
    ensures (forall c <- Decimal(n) :: IsDigit(c)) && NumberOf(Decimal(n)) == n
  {
    if n >= 10 {
      DecimalIsDigits(n / 10);
      assert Decimal(n)[..|Decimal(n)| - 1] == Decimal(n / 10);
    }
  }

  lemma {:induction false} DigitCountIs(digits: string, rest: string)
    requires (forall c <- digits :: IsDigit(c)) && (rest == "" || !IsDigit(rest[0]))
    ensures DigitCount(digits + rest) == |digits|
  {
    if digits == "" {
      assert digits + rest == rest;
    } else {
      assert (digits + rest)[1..] == digits[1..] + rest;
      DigitCountIs(digits[1..], rest);
    }
  }

  lemma DecimalReadsBack(n: nat, rest: string)
    requires n < 0x1_0000_0000 && (rest == "" || !IsDigit(rest[0]))
    ensures ParseInteger(Decimal(n) + rest) == Ok(Int(n), rest)
  {
    var d := Decimal(n);
    DecimalIsDigits(n);
    DigitCountIs(d, rest);
    assert IsDigit(d[0]) && (d + rest)[0] == d[0];
    assert (d + rest)[..|d|] == d && (d + rest)[|d|..] == rest;
  }

  // ---------------------------------------------------------------- white space

  lemma {:induction false} SkipSpacesOf(n: nat, t: string)
    ensures SkipSpace(Spaces(n) + t) == SkipSpace(t)
  {
    if n == 0 {
      assert Spaces(n) + t == t;
    } else {
      assert (Spaces(n) + t)[1..] == Spaces(n - 1) + t;
      SkipSpacesOf(n - 1, t);
    }
  }

  lemma SkipNewline(t: string)
    ensures SkipSpace("\n" + t) == SkipSpace(t)
  {
    assert ("\n" + t)[1..] == t;
  }

  /** What follows a printed value never continues a number. */
  predicate Ends(rest: string) { rest == "" || !IsDigit(rest[0]) }

  predicate OpensValue(c: char) { !IsSpace(c) && c != ']' && c != '}' }

  lemma PrintedOpens(d: Doc, indent: nat)
    ensures Printed(d, indent) != "" && OpensValue(Printed(d, indent)[0])
  {
    if d.Number? {
      DecimalIsDigits(d.n);
      assert Decimal(d.n)[0] in Decimal(d.n);
    }
  }

  // ---------------------------------------------------------------- values read back

  /** Reading a printed value gives what the reader makes of it and leaves what follows. */
  lemma {:induction false} PrintedReadsBack(d: Doc, indent: nat, rest: string)
    requires Ends(rest)
    ensures ParseValue(Printed(d, indent) + rest) == Ok(Value(d), rest)
    decreases d
  {
    PrintedOpens(d, indent);
    var s := Printed(d, indent) + rest;
    assert SkipSpace(s) == s;
    match d {
      case NullDoc => assert s[4..] == rest;
      case Number(n) => NumberReadsBack(n, rest);
      case Text(t) => QuotedReadsBack(t, rest);
      case List(items) => ListReadsBack(items, indent, rest);
      case Record(members) => RecordReadsBack(members, indent, rest);
    }
  }

  lemma NumberReadsBack(n: nat, rest: string)
    requires n < 0x1_0000_0000 && Ends(rest)
    ensures ParseValue(Decimal(n) + rest) == Ok(Int(n), rest)
  {
    DecimalReadsBack(n, rest);
    DecimalIsDigits(n);
    assert Decimal(n)[0] in Decimal(n);
    assert SkipSpace(Decimal(n) + rest) == Decimal(n) + rest;
  }

  lemma ListReadsBack(items: seq<Doc>, indent: nat, rest: string)
    ensures ParseValue(Printed(List(items), indent) + rest) == Ok(Arr(Values(items)), rest)
    decreases items, 1
  {
    var tail := Spaces(indent) + ("]" + rest);
    SkipSpacesOf(indent, "]" + rest);
    assert SkipSpace(tail) == "]" + rest && SkipSpace(tail)[1..] == rest;
    if items == [] {
      assert Printed(List(items), indent) + rest == "[" + tail;
      assert ("[" + tail)[1..] == tail;
    } else {
      var body := PrintedItems(items, indent + 2) + tail;
      Regroup5("[", "\n", PrintedItems(items, indent + 2), Spaces(indent), "]", rest);
      ItemsSplit(items, indent + 2, tail);
      PrintedOpens(items[0], indent + 2);
      ItemsReadBack(items, indent + 2, tail, []);
      NonemptyListReads(body);
      assert [] + Values(items) == Values(items);
    }
  }

  lemma NonemptyListReads(body: string)
    requires SkipSpace(body) != "" && OpensValue(SkipSpace(body)[0])
    ensures ParseValue("[" + ("\n" + body)) == ParseItems(body, [])
  {
    assert ("[" + ("\n" + body))[1..] == "\n" + body;
    SkipNewline(body);
    ItemsSkip(SkipSpace(body), body, []);
  }

  /** What follows the first of some printed items: its separator, the later items and the end of the list. */
  function AfterItem(items: seq<Doc>, indent: nat, tail: string): string
    requires items != []
  {
    Separator(|items| == 1) + (PrintedItems(items[1..], indent) + tail)
  }

  lemma ItemsSplit(items: seq<Doc>, indent: nat, tail: string)
    requires items != []
    ensures SkipSpace(PrintedItems(items, indent) + tail) == Printed(items[0], indent) + AfterItem(items, indent, tail)
  {
    var first, sep, later := Printed(items[0], indent), Separator(|items| == 1), PrintedItems(items[1..], indent);
    Regroup4(Spaces(indent), first, sep, later, tail);
    SkipSpacesOf(indent, first + (sep + (later + tail)));
    PrintedOpens(items[0], indent);
  }

  lemma Regroup4(a: string, b: string, c: string, d: string, e: string)
    ensures a + b + c + d + e == a + (b + (c + (d + e)))
  {
  }

  /** The text after a separator, white space skipped. */
  lemma AfterSeparator(last: bool, later: string)
    ensures last ==> SkipSpace(Separator(last) + later) == SkipSpace(later)
    ensures !last ==> SkipSpace(Separator(last) + later) == Separator(last) + later
    ensures !last ==> SkipSpace((Separator(last) + later)[1..]) == SkipSpace(later)
    ensures Ends(Separator(last) + later)
  {
    SkipNewline(later);
    if !last { assert (Separator(last) + later)[1..] == "\n" + later; }
  }

  lemma ItemsStep(s: string, before: seq<Json>, value: Json, after: string)
    requires ParseValue(SkipSpace(s)) == Ok(value, after)
    ensures Starts(SkipSpace(after), ']') ==> ParseItems(s, before) == Ok(Arr(before + [value]), SkipSpace(after)[1..])
    ensures Starts(SkipSpace(after), ',') ==>
            ParseItems(s, before) == ParseItems(SkipSpace(after)[1..], before + [value])
  {
  }

  lemma ItemsSkip(s: string, t: string, before: seq<Json>)
    requires SkipSpace(s) == SkipSpace(t)
    ensures ParseItems(s, before) == ParseItems(t, before)
  {
  }

  lemma {:induction false} ItemsReadBack(items: seq<Doc>, indent: nat, tail: string, before: seq<Json>)
    requires items != [] && Starts(SkipSpace(tail), ']')
    ensures ParseItems(PrintedItems(items, indent) + tail, before) ==
            Ok(Arr(before + Values(items)), SkipSpace(tail)[1..])
    decreases items, 0
  {
    var later, last := PrintedItems(items[1..], indent) + tail, |items| == 1;
    var after, grown := Separator(last) + later, before + [Value(items[0])];
    ItemsSplit(items, indent, tail);
    AfterSeparator(last, later);
    PrintedReadsBack(items[0], indent, after);
    ItemsStep(PrintedItems(items, indent) + tail, before, Value(items[0]), after);
    if last {
      assert later == tail && grown == before + Values(items);
    } else {
      ItemsSkip(after[1..], later, grown);
      ItemsReadBack(items[1..], indent, tail, grown);
      assert grown + Values(items[1..]) == before + Values(items);
    }
  }

  /** Characters that need no escape are printed as they are. */
  lemma {:induction false} PlainTextIsKept(s: string)
    requires forall i :: 0 <= i < |s| ==> s[i] != '"' && s[i] != '\\' && s[i] as int >= 0x20
    ensures Escaped(s) == s
  {
    if s != "" {
      PlainTextIsKept(s[1..]);
    }
  }

  lemma RecordReadsBack(members: seq<Member>, indent: nat, rest: string)
    ensures ParseValue(Printed(Record(members), indent) + rest) == Ok(Obj(Fields(members, map[])), rest)
    decreases members, 1
  {
    if members == [] {
      assert ("{}" + rest)[1..] == "}" + rest && ("}" + rest)[1..] == rest;
    } else {
      var tail := Spaces(indent) + ("}" + rest);
      var body := PrintedMembers(members, indent + 2) + tail;
      SkipSpacesOf(indent, "}" + rest);
      assert SkipSpace(tail) == "}" + rest && SkipSpace(tail)[1..] == rest;
      MembersOpen(members, indent + 2, tail);
      NonemptyRecordReads(body);
      MembersReadBack(members, indent + 2, tail, map[]);
      RecordText(members, indent, rest);
    }
  }

  lemma RecordText(members: seq<Member>, indent: nat, rest: string)
    requires members != []
    ensures Printed(Record(members), indent) + rest ==
            "{\n" + (PrintedMembers(members, indent + 2) + (Spaces(indent) + ("}" + rest)))
  {
    Regroup4("{\n", PrintedMembers(members, indent + 2), Spaces(indent), "}", rest);
  }

  lemma NonemptyRecordReads(body: string)
    requires Starts(SkipSpace(body), '"')
    ensures ParseValue("{\n" + body) == ParseMembers(body, map[])
  {
    assert ("{\n" + body)[1..] == "\n" + body;
    SkipNewline(body);
    MembersSkip(SkipSpace(body), body, map[]);
  }

  /** A member after its key, and a list of members after the indentation. */
  function AfterKey(members: seq<Member>, indent: nat, tail: string): string
    requires members != []
  {
    ": " + (Printed(members[0].doc, indent) +
        (Separator(|members| == 1) + (PrintedMembers(members[1..], indent) + tail)))
  }

  lemma MembersSplit(members: seq<Member>, indent: nat, tail: string)
    requires members != []
    ensures SkipSpace(PrintedMembers(members, indent) + tail) ==
            Quoted(members[0].key) + AfterKey(members, indent, tail)
  {
    var first, sep := Printed(members[0].doc, indent), Separator(|members| == 1);
    var later := PrintedMembers(members[1..], indent);
    var key, after := members[0].key, first + (sep + (later + tail));
    Regroup5(Spaces(indent), KeyText(key), first, sep, later, tail);
    Regroup(Quoted(key), ": ", after);
    SkipSpacesOf(indent, KeyText(key) + after);
  }

  lemma Regroup5(a: string, b: string, c: string, d: string, e: string, f: string)
    ensures a + b + c + d + e + f == a + (b + (c + (d + (e + f))))
  {
  }

  lemma MembersOpen(members: seq<Member>, indent: nat, tail: string)
    requires members != []
    ensures Starts(SkipSpace(PrintedMembers(members, indent) + tail), '"')
  {
    MembersSplit(members, indent, tail);
  }

  lemma MembersStep(s: string, before: map<string, Json>, key: string, afterKey: string, value: Json, after: string)
    requires ParseString(SkipSpace(s)) == Ok(key, afterKey) && Starts(SkipSpace(afterKey), ':')
    requires ParseValue(SkipSpace(SkipSpace(afterKey)[1..])) == Ok(value, after)
    ensures var grown := Emplaced(before, key, value);
            && (Starts(SkipSpace(after), '}') ==> ParseMembers(s, before) == Ok(Obj(grown), SkipSpace(after)[1..]))
            && (Starts(SkipSpace(after), ',') ==> ParseMembers(s, before) == ParseMembers(SkipSpace(after)[1..], grown))
  {
  }

  lemma MembersSkip(s: string, t: string, before: map<string, Json>)
    requires SkipSpace(s) == SkipSpace(t)
    ensures ParseMembers(s, before) == ParseMembers(t, before)
  {
  }

  lemma AfterColon(d: Doc, indent: nat, after: string)
    ensures SkipSpace(": " + (Printed(d, indent) + after)) == ": " + (Printed(d, indent) + after)
    ensures SkipSpace((": " + (Printed(d, indent) + after))[1..]) == Printed(d, indent) + after
  {
    PrintedOpens(d, indent);
    var t := Printed(d, indent) + after;
    assert (": " + t)[1..] == " " + t && (" " + t)[1..] == t;
  }

  lemma {:induction false} MembersReadBack(members: seq<Member>, indent: nat, tail: string, before: map<string, Json>)
    requires members != [] && Starts(SkipSpace(tail), '}')
    ensures ParseMembers(PrintedMembers(members, indent) + tail, before) ==
            Ok(Obj(Fields(members, before)), SkipSpace(tail)[1..])
    decreases members, 0
  {
    var later, last := PrintedMembers(members[1..], indent) + tail, |members| == 1;
    var after, value := Separator(last) + later, Value(members[0].doc);
    MembersSplit(members, indent, tail);
    QuotedReadsBack(members[0].key, AfterKey(members, indent, tail));
    AfterColon(members[0].doc, indent, after);
    AfterSeparator(last, later);
    PrintedReadsBack(members[0].doc, indent, after);
    MembersStep(PrintedMembers(members, indent) + tail, before, members[0].key, AfterKey(members, indent, tail), value,
        after);
    if last {
      assert later == tail;
    } else {
      MembersSkip(after[1..], later, Emplaced(before, members[0].key, value));
      MembersReadBack(members[1..], indent, tail, Emplaced(before, members[0].key, value));
    }
  }

  /** A printed document, its final newline included, reads back. */
  lemma DocumentReadsBack(d: Doc)
    requires d.Record? || d.List?
    ensures Parse(Printed(d, 0) + "\n") == Ok(Value(d), "")
  {
    var text := Printed(d, 0) + "\n";
    PrintedOpens(d, 0);
    PrintedReadsBack(d, 0, "\n");
    assert SkipSpace(text) == text && ("\n")[1..] == "";
  }
}
