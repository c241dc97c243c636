/**
 The nesting scanner that runs over ledger text before the JSON parser does, and the canonical
 printer whose output it must measure exactly.
 */
module JsonText {
  import opened Prelude

  /** A Python string holds arbitrary code points, unpaired surrogates included. */
  type CodePoint = c: int | 0 <= c < 0x11_0000

  predicate IsNumberChar(c: char) {
    '0' <= c <= '9' || c == '+' || c == '-' || c == '.' || c == 'e' || c == 'E'
  }

  /** The decimal text of an integer or a finite float. */
  type NumberText = t: string | forall c <- t :: IsNumberChar(c)

  datatype Json =
    | Null
    | Bool(b: bool)
    | Number(text: NumberText)
    | Text(s: seq<CodePoint>)
    | Array(items: seq<Json>)
    | Object(fields: seq<Member>)

  datatype Member = Member(key: seq<CodePoint>, value: Json)

  function HexDigit(d: int): char
    requires 0 <= d < 16
  {
    if d < 10 then '0' + d as char else 'a' + (d - 10) as char
  }

  /** `\uXXXX` for one UTF-16 code unit. */
  function UnicodeEscape(unit: int): string
    requires 0 <= unit < 0x1_0000
  {
    ['\\', 'u', HexDigit(unit / 0x1000), HexDigit(unit / 0x100 % 16), HexDigit(unit / 0x10 % 16), HexDigit(unit % 16)]
  }

  /** One code point inside a string (section 7 of RFC 8259), everything outside printable ASCII escaped. */
  function Escape(c: CodePoint): string {
    if c == 0x22 then "\\\""
    else if c == 0x5C then "\\\\"
    else if c == 0x0A then "\\n"
    else if c == 0x0D then "\\r"
    else if c == 0x09 then "\\t"
    else if c == 0x0C then "\\f"
    else if c == 0x08 then "\\b"
    else if 0x20 <= c <= 0x7E then [c as char]
    else if c < 0x1_0000 then UnicodeEscape(c)
    else UnicodeEscape(0xD800 + (c - 0x1_0000) / 0x400) + UnicodeEscape(0xDC00 + (c - 0x1_0000) % 0x400)
  }

  function EscapeAll(s: seq<CodePoint>): string {
    if s == [] then "" else Escape(s[0]) + EscapeAll(s[1..])
  }

  function Quoted(s: seq<CodePoint>): string {
    "\"" + EscapeAll(s) + "\""
  }

  /** Canonical JSON: no white space, keys in the order the value lists them. */
  function Print(v: Json): string
    decreases v
  {
    match v
    case Null => "null"
    case Bool(b) => if b then "true" else "false"
    case Number(text) => text
    case Text(s) => Quoted(s)
    case Array(items) => "[" + PrintItems(items) + "]"
    case Object(fields) => "{" + PrintFields(fields) + "}"
  }

  function PrintItems(items: seq<Json>): string
    decreases items
  {
    if items == [] then ""
    else Print(items[0]) + (if |items| == 1 then "" else ",") + PrintItems(items[1..])
  }

  function PrintFields(fields: seq<Member>): string
    decreases fields
  {
    if fields == [] then ""
    else Quoted(fields[0].key) + ":" + Print(fields[0].value) + (if |fields| == 1 then "" else ",") + PrintFields(fields[1..])
  }

  function Max(a: nat, b: nat): nat {
    if a < b then b else a
  }

  /** How many arrays and objects enclose the most deeply enclosed value, itself included. */
  function Nesting(v: Json): nat
    decreases v
  {
    match v
    case Array(items) => 1 + ItemNesting(items)
    case Object(fields) => 1 + FieldNesting(fields)
    case _ => 0
  }

  function ItemNesting(items: seq<Json>): nat
    decreases items
  {
    if items == [] then 0 else Max(Nesting(items[0]), ItemNesting(items[1..]))
  }

  function FieldNesting(fields: seq<Member>): nat
    decreases fields
  {
    if fields == [] then 0 else Max(Nesting(fields[0].value), FieldNesting(fields[1..]))
  }

  /** The three local variables of the scanner. */
  datatype Scan = Scan(depth: int, inString: bool, escaped: bool)

  function ScanChar(st: Scan, c: char, maximum: int): Option<Scan> {
    if st.inString then
      if st.escaped then Some(st.(escaped := false))
      else if c == '\\' then Some(st.(escaped := true))
      else if c == '"' then Some(st.(inString := false))
      else Some(st)
    else if c == '"' then Some(st.(inString := true))
    else if c == '[' || c == '{' then
      if st.depth + 1 > maximum then None else Some(st.(depth := st.depth + 1))
    else if c == ']' || c == '}' then Some(st.(depth := st.depth - 1))
    else Some(st)
  }

  function ScanText(st: Scan, text: string, maximum: int): Option<Scan> {
    if text == "" then Some(st)
    else
      var before :- ScanText(st, text[..|text| - 1], maximum);
      ScanChar(before, text[|text| - 1], maximum)
  }

  const START := Scan(0, false, false)
  const MAX_JSON_NESTING := 64

  method CheckJsonNesting(text: string, maximum: int := MAX_JSON_NESTING) returns (accepted: bool)
    ensures accepted <==> ScanText(START, text, maximum).Some?
  {
    var depth, inString, escaped := 0, false, false;
    for i := 0 to |text|
      invariant ScanText(START, text[..i], maximum) == Some(Scan(depth, inString, escaped))
    {
      var c := text[i];
      assert text[..i + 1][..i] == text[..i];
      ghost var before := Scan(depth, inString, escaped);
      if inString {
        if escaped {
          escaped := false;
        } else if c == '\\' {
          escaped := true;
        } else if c == '"' {
          inString := false;
        }
      } else if c == '"' {
        inString := true;
      } else if c == '[' || c == '{' {
        depth := depth + 1;
        if depth > maximum {
          assert ScanText(START, text[..i + 1], maximum).None?;
          RejectionPersists(text, i + 1, maximum);
          return false;
        }
      } else if c == ']' || c == '}' {
        depth := depth - 1;
      }
      assert ScanChar(before, c, maximum) == Some(Scan(depth, inString, escaped));
    }
    assert text[..|text|] == text;
    accepted := true;
  }

  lemma {:induction false} RejectionPersists(text: string, i: nat, maximum: int)
    requires i <= |text| && ScanText(START, text[..i], maximum).None?
    ensures ScanText(START, text, maximum).None?
    decreases |text|
  {
    if i < |text| {
      var front := text[..|text| - 1];
      assert front[..i] == text[..i];
      RejectionPersists(front, i, maximum);
    } else {
      assert text[..i] == text;
    }
  }

  lemma {:induction false} ScanAppend(st: Scan, a: string, b: string, maximum: int)
    ensures ScanText(st, a + b, maximum)
         == match ScanText(st, a, maximum) case None => None case Some(mid) => ScanText(mid, b, maximum)
  {
    if b == "" {
      assert a + b == a;
    } else {
      var front := b[..|b| - 1];
      ScanAppend(st, a, front, maximum);
      assert (a + b)[..|a + b| - 1] == a + front;
      assert (a + b)[|a + b| - 1] == b[|b| - 1];
    }
  }

  lemma ScanOne(st: Scan, c: char, maximum: int)
    ensures ScanText(st, [c], maximum) == ScanChar(st, c, maximum)
  {
    assert [c][..0] == "";
  }

  /** Text without quotes, brackets or backslashes is invisible to the scanner. */
  lemma {:induction false} PlainTextIsInert(st: Scan, text: string, maximum: int)
    requires !st.escaped
    requires forall c <- text :: c !in "\"\\[]{}"
    ensures ScanText(st, text, maximum) == Some(st)
  {
    if text != "" {
      assert forall c <- text[..|text| - 1] :: c in text;
      PlainTextIsInert(st, text[..|text| - 1], maximum);
      assert text[|text| - 1] in text;
    }
  }

  /** A backslash and whatever character follows it leave the scanner inside the string. */
  lemma EscapedPairIsInert(depth: int, pair: string, maximum: int)
    requires |pair| == 2 && pair[0] == '\\'
    ensures ScanText(Scan(depth, true, false), pair, maximum) == Some(Scan(depth, true, false))
  {
    var st := Scan(depth, true, false);
    ScanOne(st, pair[0], maximum);
    ScanOne(Scan(depth, true, true), pair[1], maximum);
    ScanAppend(st, [pair[0]], [pair[1]], maximum);
    assert pair == [pair[0]] + [pair[1]];
  }

  lemma UnicodeEscapeIsInert(depth: int, unit: int, maximum: int)
    requires 0 <= unit < 0x1_0000
    ensures ScanText(Scan(depth, true, false), UnicodeEscape(unit), maximum) == Some(Scan(depth, true, false))
  {
    var st, text := Scan(depth, true, false), UnicodeEscape(unit);
    EscapedPairIsInert(depth, text[..2], maximum);
    PlainTextIsInert(st, text[2..], maximum);
    ScanAppend(st, text[..2], text[2..], maximum);
    assert text == text[..2] + text[2..];
  }

  lemma EscapeIsInert(depth: int, c: CodePoint, maximum: int)
    ensures ScanText(Scan(depth, true, false), Escape(c), maximum) == Some(Scan(depth, true, false))
  {
    var st := Scan(depth, true, false);
    if c in {0x22, 0x5C, 0x0A, 0x0D, 0x09, 0x0C, 0x08} {
      EscapedPairIsInert(depth, Escape(c), maximum);
    } else if 0x20 <= c <= 0x7E {
      ScanOne(st, c as char, maximum);
    } else if c < 0x1_0000 {
      UnicodeEscapeIsInert(depth, c, maximum);
    } else {
      var high, low := 0xD800 + (c - 0x1_0000) / 0x400, 0xDC00 + (c - 0x1_0000) % 0x400;
      UnicodeEscapeIsInert(depth, high, maximum);
      UnicodeEscapeIsInert(depth, low, maximum);
      ScanAppend(st, UnicodeEscape(high), UnicodeEscape(low), maximum);
    }
  }

  lemma {:induction false} EscapedStringIsInert(depth: int, s: seq<CodePoint>, maximum: int)
    ensures ScanText(Scan(depth, true, false), EscapeAll(s), maximum) == Some(Scan(depth, true, false))
  {
    if s != [] {
      EscapeIsInert(depth, s[0], maximum);
      EscapedStringIsInert(depth, s[1..], maximum);
      ScanAppend(Scan(depth, true, false), Escape(s[0]), EscapeAll(s[1..]), maximum);
    }
  }

  /** A quoted string is invisible whatever quotes, brackets and backslashes it contains. */
  lemma QuotedStringIsInert(depth: int, s: seq<CodePoint>, maximum: int)
    ensures ScanText(Scan(depth, false, false), Quoted(s), maximum) == Some(Scan(depth, false, false))
  {
    var outside, inside := Scan(depth, false, false), Scan(depth, true, false);
    ScanOne(outside, '"', maximum);
    EscapedStringIsInert(depth, s, maximum);
    ScanOne(inside, '"', maximum);
    ScanAppend(outside, "\"", EscapeAll(s), maximum);
    ScanAppend(outside, "\"" + EscapeAll(s), "\"", maximum);
  }

  /** What the scanner does on text that holds `nesting` further levels: refuse it, or come back where it was. */
  function Measured(depth: int, nesting: nat, maximum: int): Option<Scan> {
    if depth + nesting <= maximum then Some(Scan(depth, false, false)) else None
  }

  lemma {:induction false} ScannerMeasuresValue(v: Json, depth: int, maximum: int)
    requires depth <= maximum
    ensures ScanText(Scan(depth, false, false), Print(v), maximum) == Measured(depth, Nesting(v), maximum)
    decreases v
  {
    var st := Scan(depth, false, false);
    match v {
      case Null => PlainTextIsInert(st, "null", maximum);
      case Bool(b) => PlainTextIsInert(st, Print(v), maximum);
      case Number(text) => PlainTextIsInert(st, text, maximum);
      case Text(s) => QuotedStringIsInert(depth, s, maximum);
      case Array(items) =>
        if depth < maximum { ScannerMeasuresItems(items, depth + 1, maximum); }
        BracketsAddOne(depth, '[', PrintItems(items), ']', ItemNesting(items), maximum);
      case Object(fields) =>
        if depth < maximum { ScannerMeasuresFields(fields, depth + 1, maximum); }
        BracketsAddOne(depth, '{', PrintFields(fields), '}', FieldNesting(fields), maximum);
    }
  }

  lemma BracketsAddOne(depth: int, open: char, body: string, close: char, nesting: nat, maximum: int)
    requires open in "[{" && close in "]}" && depth <= maximum
    requires depth < maximum ==>
      ScanText(Scan(depth + 1, false, false), body, maximum) == Measured(depth + 1, nesting, maximum)
    ensures ScanText(Scan(depth, false, false), [open] + body + [close], maximum) == Measured(depth, 1 + nesting, maximum)
  {
    var st, deeper := Scan(depth, false, false), Scan(depth + 1, false, false);
    ScanOne(st, open, maximum);
    ScanOne(deeper, close, maximum);
    ScanAppend(st, [open], body, maximum);
    ScanAppend(st, [open] + body, [close], maximum);
  }

  lemma SequenceTakesMax(depth: int, a: string, na: nat, b: string, nb: nat, maximum: int)
    requires ScanText(Scan(depth, false, false), a, maximum) == Measured(depth, na, maximum)
    requires ScanText(Scan(depth, false, false), b, maximum) == Measured(depth, nb, maximum)
    ensures ScanText(Scan(depth, false, false), a + b, maximum) == Measured(depth, Max(na, nb), maximum)
  {
    ScanAppend(Scan(depth, false, false), a, b, maximum);
  }

  lemma {:induction false} ScannerMeasuresItems(items: seq<Json>, depth: int, maximum: int)
    requires depth <= maximum
    ensures ScanText(Scan(depth, false, false), PrintItems(items), maximum) == Measured(depth, ItemNesting(items), maximum)
    decreases items
  {
    if items != [] {
      var comma := if |items| == 1 then "" else ",";
      ScannerMeasuresValue(items[0], depth, maximum);
      PlainTextIsInert(Scan(depth, false, false), comma, maximum);
      ScannerMeasuresItems(items[1..], depth, maximum);
      SequenceTakesMax(depth, Print(items[0]), Nesting(items[0]), comma, 0, maximum);
      SequenceTakesMax(depth, Print(items[0]) + comma, Nesting(items[0]), PrintItems(items[1..]), ItemNesting(items[1..]), maximum);
    }
  }

  lemma {:induction false} ScannerMeasuresFields(fields: seq<Member>, depth: int, maximum: int)
    requires depth <= maximum
    ensures ScanText(Scan(depth, false, false), PrintFields(fields), maximum) == Measured(depth, FieldNesting(fields), maximum)
    decreases fields
  {
    if fields != [] {
      var comma := if |fields| == 1 then "" else ",";
      var key, value, rest := Quoted(fields[0].key), fields[0].value, fields[1..];
      QuotedStringIsInert(depth, fields[0].key, maximum);
      PlainTextIsInert(Scan(depth, false, false), ":", maximum);
      ScannerMeasuresValue(value, depth, maximum);
      PlainTextIsInert(Scan(depth, false, false), comma, maximum);
      ScannerMeasuresFields(rest, depth, maximum);
      SequenceTakesMax(depth, key, 0, ":", 0, maximum);
      SequenceTakesMax(depth, key + ":", 0, Print(value), Nesting(value), maximum);
      SequenceTakesMax(depth, key + ":" + Print(value), Nesting(value), comma, 0, maximum);
      SequenceTakesMax(depth, key + ":" + Print(value) + comma, Nesting(value), PrintFields(rest), FieldNesting(rest), maximum);
    }
  }

  /**
   On canonical text the scanner is exact: it accepts a value if and only if its nesting is at
   most the maximum, and then it ends at depth zero outside any string.
   */
  lemma ScannerIsExact(v: Json, maximum: nat)
    ensures ScanText(START, Print(v), maximum).Some? <==> Nesting(v) <= maximum
    ensures Nesting(v) <= maximum ==> ScanText(START, Print(v), maximum) == Some(START)
  {
    ScannerMeasuresValue(v, 0, maximum);
  }
}
