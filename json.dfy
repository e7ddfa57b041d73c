/** The Option type shared by the other modules. */
module Wrappers {
  datatype Option<+T> = None | Some(value: T)
}

/**
 * The JSON text format as the to-do list's storage uses it: `JSON.stringify`
 * writes the list (Serialize) and `JSON.parse` reads it back (Parse).
 *
 * Serialize follows ECMAScript's JSON.stringify for the values it covers: no
 * whitespace, object members in order, strings quoted with `"` and `\`
 * escaped, the control characters written as `\b \t \n \f \r` or `\u00xx`
 * (lower-case hex). Numbers are integers only.
 *
 * Parse accepts the JSON grammar (RFC 8259) with two restrictions that are
 * stated in the README: numbers are integers (no fraction, no exponent), and a
 * `\u` escape may not name a UTF-16 surrogate. An object is read as the list
 * of its members in text order, repeated keys included; JSON.parse builds an
 * object instead, where the last value of a repeated key wins and integer-like
 * keys come first.
 */
module Json {
  import opened Wrappers

  datatype Json =
    | JNull
    | JBool(b: bool)
    | JNum(n: int)
    | JStr(s: string)
    | JArr(items: seq<Json>)
    | JObj(fields: seq<Field>)

  /** One member of an object, in the order the text lists it. */
  datatype Field = Field(key: string, value: Json)

  // ---------------------------------------------------------------------
  // Characters

  /** The four whitespace characters JSON allows between tokens. */
  predicate IsWs(c: char) {
    c == ' ' || c == '\t' || c == '\n' || c == '\r'
  }

  predicate IsDigit(c: char) {
    '0' <= c <= '9'
  }

  predicate AllDigits(s: string) {
    forall i :: 0 <= i < |s| ==> IsDigit(s[i])
  }

  function DigitChar(d: nat): (c: char)
    requires d < 10
    ensures IsDigit(c) && c as int - '0' as int == d
  {
    ('0' as int + d) as char
  }

  /** Lower-case hexadecimal digit, as JSON.stringify writes it. */
  function HexChar(d: nat): char
    requires d < 16
  {
    if d < 10 then DigitChar(d) else ('a' as int + d - 10) as char
  }

  /** The value of a hexadecimal digit of either case. */
  function HexValue(c: char): (r: Option<nat>)
    ensures r.Some? ==> r.value < 16
  {
    if '0' <= c <= '9' then Some(c as int - '0' as int)
    else if 'a' <= c <= 'f' then Some(c as int - 'a' as int + 10)
    else if 'A' <= c <= 'F' then Some(c as int - 'A' as int + 10)
    else None
  }

  lemma {:induction false} HexRoundTrip(d: nat)
    requires d < 16
    ensures HexValue(HexChar(d)) == Some(d)
  {
  }

  // ---------------------------------------------------------------------
  // Serialization (JSON.stringify)

  /** Decimal digits of n, without leading zeros. */
  function NatText(n: nat): (r: string)
    ensures |r| > 0 && AllDigits(r)
    ensures r[0] == '0' ==> n == 0 && r == "0"
  {
    if n < 10 then [DigitChar(n)] else NatText(n / 10) + [DigitChar(n % 10)]
  }

  function IntText(n: int): string {
    if n < 0 then "-" + NatText(-n) else NatText(n)
  }

  function EscapeChar(c: char): string {
    if c == '"' then "\\\""
    else if c == '\\' then "\\\\"
    else if c as int == 0x08 then "\\b"
    else if c as int == 0x0C then "\\f"
    else if c == '\n' then "\\n"
    else if c == '\r' then "\\r"
    else if c == '\t' then "\\t"
    else if c as int < 0x20 then "\\u00" + [HexChar(c as int / 16), HexChar(c as int % 16)]
    else [c]
  }

  function Escape(s: string): string {
    if s == [] then [] else EscapeChar(s[0]) + Escape(s[1..])
  }

  function Quote(s: string): string {
    "\"" + Escape(s) + "\""
  }

  /**
   * JSON.stringify(j). The first character of the text is never whitespace
   * and tells which kind of value follows.
   */
  function Serialize(j: Json): (r: string)
    ensures r != [] && !IsWs(r[0])
    ensures j.JNull? || j.JBool? <==> r[0] == 'n' || r[0] == 't' || r[0] == 'f'
    ensures j.JNum? <==> r[0] == '-' || IsDigit(r[0])
    ensures j.JStr? <==> r[0] == '"'
    ensures j.JArr? <==> r[0] == '['
    ensures j.JObj? <==> r[0] == '{'
    decreases j
  {
    match j
    case JNull => "null"
    case JBool(b) => if b then "true" else "false"
    case JNum(n) => IntText(n)
    case JStr(s) => Quote(s)
    case JArr(items) => "[" + SerializeItems(items) + "]"
    case JObj(fields) => "{" + SerializeFields(fields) + "}"
  }

  /** The elements of an array, separated by commas. */
  function SerializeItems(items: seq<Json>): string
    decreases items
  {
    if items == [] then ""
    else if |items| == 1 then Serialize(items[0])
    else Serialize(items[0]) + "," + SerializeItems(items[1..])
  }

  /** The members of an object, `"key":value`, separated by commas. */
  function SerializeFields(fields: seq<Field>): string
    decreases fields
  {
    if fields == [] then ""
    else
      var one := SerializeField(fields[0]);
      if |fields| == 1 then one else one + "," + SerializeFields(fields[1..])
  }

  function SerializeField(f: Field): string
    decreases f
  {
    Quote(f.key) + ":" + Serialize(f.value)
  }

  // ---------------------------------------------------------------------
  // Parsing (JSON.parse). Each parser takes the remaining input and returns
  // what it read together with the input that follows it.

  function SkipWs(s: string): (r: string)
    ensures |r| <= |s|
    ensures r == [] || !IsWs(r[0])
  {
    if s != [] && IsWs(s[0]) then SkipWs(s[1..]) else s
  }

  /** The value of four hexadecimal digits. */
  function Hex4(s: string): (r: Option<nat>)
    requires |s| == 4
    ensures r.Some? ==> r.value < 0x1_0000
  {
    match (HexValue(s[0]), HexValue(s[1]), HexValue(s[2]), HexValue(s[3]))
    case (Some(a), Some(b), Some(c), Some(d)) => Some(((a * 16 + b) * 16 + c) * 16 + d)
    case _ => None
  }

  /** Reads the character of an escape sequence; s follows the backslash. */
  function ParseEscape(s: string): (r: Option<(char, string)>)
    ensures r.Some? ==> |r.value.1| < |s|
  {
    if s == [] then None
    else if s[0] == '"' || s[0] == '\\' || s[0] == '/' then Some((s[0], s[1..]))
    else if s[0] == 'b' then Some((0x08 as char, s[1..]))
    else if s[0] == 'f' then Some((0x0C as char, s[1..]))
    else if s[0] == 'n' then Some(('\n', s[1..]))
    else if s[0] == 'r' then Some(('\r', s[1..]))
    else if s[0] == 't' then Some(('\t', s[1..]))
    else if s[0] == 'u' && |s| >= 5 then
      match Hex4(s[1..5])
      case None => None
      case Some(v) => if 0xD800 <= v < 0xE000 then None else Some((v as char, s[5..]))
    else None
  }

  /** Reads the body of a string literal; s follows the opening quote. */
  function ParseString(s: string): (r: Option<(string, string)>)
    ensures r.Some? ==> |r.value.1| < |s|
    decreases |s|
  {
    if s == [] then None
    else if s[0] == '"' then Some(("", s[1..]))
    else if s[0] == '\\' then
      match ParseEscape(s[1..])
      case None => None
      case Some((c, rest)) =>
        match ParseString(rest)
        case None => None
        case Some((body, rest')) => Some(([c] + body, rest'))
    else if s[0] as int < 0x20 then None
    else
      match ParseString(s[1..])
      case None => None
      case Some((body, rest)) => Some(([s[0]] + body, rest))
  }

  /** The number of digits at the start of s. */
  function DigitCount(s: string): (k: nat)
    ensures k <= |s| && AllDigits(s[..k])
  {
    if s != [] && IsDigit(s[0]) then 1 + DigitCount(s[1..]) else 0
  }

  function DigitsValue(d: string): nat
    requires AllDigits(d)
  {
    if d == [] then 0 else DigitsValue(d[..|d| - 1]) * 10 + (d[|d| - 1] as int - '0' as int)
  }

  /** Reads an unsigned integer; JSON forbids leading zeros. */
  function ParseNat(s: string): (r: Option<(nat, string)>)
    ensures r.Some? ==> |r.value.1| < |s|
  {
    var k := DigitCount(s);
    if k == 0 || (s[0] == '0' && k > 1) then None
    else Some((DigitsValue(s[..k]), s[k..]))
  }

  function ParseNumber(s: string): (r: Option<(int, string)>)
    ensures r.Some? ==> |r.value.1| < |s|
  {
    if s != [] && s[0] == '-' then
      match ParseNat(s[1..])
      case None => None
      case Some((n, rest)) => var m: int := n; Some((-m, rest))
    else
      match ParseNat(s)
      case None => None
      case Some((n, rest)) => Some((n, rest))
  }

  /** Reads one value, after any leading whitespace. */
  function ParseValue(s: string): (r: Option<(Json, string)>)
    ensures r.Some? ==> |r.value.1| < |s|
    decreases |s|, 0
  {
    var t := SkipWs(s);
    if t == [] then None
    else if t[0] == '[' then ParseArray(t[1..])
    else if t[0] == '{' then ParseObject(t[1..])
    else ParseScalar(t)
  }

  /** Reads a literal, a string or a number at the very start of s. */
  function ParseScalar(s: string): (r: Option<(Json, string)>)
    ensures r.Some? ==> |r.value.1| < |s|
  {
    if s == [] then None
    else if s[0] == 'n' then
      if |s| >= 4 && s[..4] == "null" then Some((JNull, s[4..])) else None
    else if s[0] == 't' then
      if |s| >= 4 && s[..4] == "true" then Some((JBool(true), s[4..])) else None
    else if s[0] == 'f' then
      if |s| >= 5 && s[..5] == "false" then Some((JBool(false), s[5..])) else None
    else if s[0] == '"' then
      match ParseString(s[1..])
      case None => None
      case Some((str, rest)) => Some((JStr(str), rest))
    else if s[0] == '-' || IsDigit(s[0]) then
      match ParseNumber(s)
      case None => None
      case Some((n, rest)) => Some((JNum(n), rest))
    else None
  }

  /** Reads the rest of an array; s follows the opening bracket. */
  function ParseArray(s: string): (r: Option<(Json, string)>)
    ensures r.Some? ==> |r.value.1| < |s|
    decreases |s|, 3
  {
    var u := SkipWs(s);
    if u != [] && u[0] == ']' then Some((JArr([]), u[1..]))
    else
      match ParseItems(u)
      case None => None
      case Some((items, rest)) => Some((JArr(items), rest))
  }

  /** Reads the rest of an object; s follows the opening brace. */
  function ParseObject(s: string): (r: Option<(Json, string)>)
    ensures r.Some? ==> |r.value.1| < |s|
    decreases |s|, 3
  {
    var u := SkipWs(s);
    if u != [] && u[0] == '}' then Some((JObj([]), u[1..]))
    else
      match ParseFields(u)
      case None => None
      case Some((fields, rest)) => Some((JObj(fields), rest))
  }

  /** Reads `value (, value)* ]`: the elements of a non-empty array and its closing bracket. */
  function ParseItems(s: string): (r: Option<(seq<Json>, string)>)
    ensures r.Some? ==> |r.value.1| < |s|
    decreases |s|, 1
  {
    match ParseValue(s)
    case None => None
    case Some((v, rest)) =>
      var t := SkipWs(rest);
      if t == [] then None
      else if t[0] == ']' then Some(([v], t[1..]))
      else if t[0] == ',' then
        match ParseItems(t[1..])
        case None => None
        case Some((vs, rest')) => Some(([v] + vs, rest'))
      else None
  }

  /** Reads one object member `"key" : value`, after any leading whitespace. */
  function ParseMember(s: string): (r: Option<(Field, string)>)
    ensures r.Some? ==> |r.value.1| < |s|
    decreases |s|, 1
  {
    var t := SkipWs(s);
    if t == [] || t[0] != '"' then None
    else
      match ParseString(t[1..])
      case None => None
      case Some((key, r1)) =>
        var u := SkipWs(r1);
        if u == [] || u[0] != ':' then None
        else
          match ParseValue(u[1..])
          case None => None
          case Some((v, r2)) => Some((Field(key, v), r2))
  }

  /** Reads `member (, member)* }`: the members of a non-empty object and its closing brace. */
  function ParseFields(s: string): (r: Option<(seq<Field>, string)>)
    ensures r.Some? ==> |r.value.1| < |s|
    decreases |s|, 2
  {
    match ParseMember(s)
    case None => None
    case Some((f, rest)) =>
      var t := SkipWs(rest);
      if t == [] then None
      else if t[0] == '}' then Some(([f], t[1..]))
      else if t[0] == ',' then
        match ParseFields(t[1..])
        case None => None
        case Some((fs, rest')) => Some(([f] + fs, rest'))
      else None
  }

  predicate AllWs(s: string) {
    forall i :: 0 <= i < |s| ==> IsWs(s[i])
  }

  /** Text made of whitespace alone, the empty text included, holds no token. */
  lemma {:induction false} SkipAllWs(s: string)
    ensures AllWs(s) ==> SkipWs(s) == []
  {
    if s != [] && AllWs(s) {
      assert AllWs(s[1..]) by {
        forall i | 0 <= i < |s[1..]| ensures IsWs(s[1..][i]) {
          assert s[1..][i] == s[i + 1];
        }
      }
      SkipAllWs(s[1..]);
    }
  }

  /** A whole JSON text: one value, with only whitespace around it. None where JSON.parse throws. */
  function Parse(s: string): (r: Option<Json>)
    ensures AllWs(s) ==> r == None
  {
    SkipAllWs(s);
    match ParseValue(s)
    case None => None
    case Some((j, rest)) => if SkipWs(rest) == [] then Some(j) else None
  }

  // ---------------------------------------------------------------------
  // Round trip: parsing what Serialize wrote gives back the value

  lemma {:induction false} DigitCountPrefix(d: string, rest: string)
    requires AllDigits(d)
    requires rest == [] || !IsDigit(rest[0])
    ensures DigitCount(d + rest) == |d|
  {
    if d != [] {
      assert (d + rest)[1..] == d[1..] + rest;
      DigitCountPrefix(d[1..], rest);
    }
  }

  lemma {:induction false} DigitsValueOfText(n: nat)
    ensures DigitsValue(NatText(n)) == n
  {
    if n >= 10 {
      var r := NatText(n);
      assert r[..|r| - 1] == NatText(n / 10);
      DigitsValueOfText(n / 10);
    }
  }

  lemma {:induction false} NatRoundTrip(n: nat, rest: string)
    requires rest == [] || !IsDigit(rest[0])
    ensures ParseNat(NatText(n) + rest) == Some((n, rest))
  {
    var d := NatText(n);
    DigitCountPrefix(d, rest);
    assert (d + rest)[..|d|] == d;
    assert (d + rest)[|d|..] == rest;
    DigitsValueOfText(n);
  }

  lemma {:induction false} IntRoundTrip(n: int, rest: string)
    requires rest == [] || !IsDigit(rest[0])
    ensures ParseNumber(IntText(n) + rest) == Some((n, rest))
  {
    var t := IntText(n) + rest;
    if n < 0 {
      NegativeRoundTrip(n, rest);
    } else {
      var d := NatText(n);
      assert t == d + rest;
      assert IsDigit(d[0]);
      NatRoundTrip(n, rest);
    }
  }

  lemma {:induction false} NegativeRoundTrip(n: int, rest: string)
    requires n < 0
    requires rest == [] || !IsDigit(rest[0])
    ensures ParseNumber(IntText(n) + rest) == Some((n, rest))
  {
    var x := NatText(-n) + rest;
    assert IntText(n) + rest == "-" + x;
    NatRoundTrip(-n, rest);
    MinusSign(x, -n, rest);
  }

  /** A minus sign in front of a natural number negates it. */
  lemma {:induction false} MinusSign(x: string, m: nat, rest: string)
    requires ParseNat(x) == Some((m, rest))
    ensures ParseNumber("-" + x) == Some((-(m as int), rest))
  {
    assert ("-" + x)[0] == '-' && ("-" + x)[1..] == x;
  }

  /** What a string parser returns once one more character is read in front of it. */
  function Prepend(c: char, r: Option<(string, string)>): Option<(string, string)> {
    match r
    case None => None
    case Some((body, rest)) => Some(([c] + body, rest))
  }

  lemma {:induction false} EscapeCharStep(c: char, tail: string)
    ensures ParseString(EscapeChar(c) + tail) == Prepend(c, ParseString(tail))
  {
    if c as int < 0x20 && c != '\n' && c != '\r' && c != '\t' && c as int != 0x08 && c as int != 0x0C {
      HexEscapeStep(c, tail);
    } else if EscapeChar(c) != [c] {
      ShortEscapeStep(c, tail);
    } else {
      var s := EscapeChar(c) + tail;
      assert s[0] == c && s[1..] == tail;
    }
  }

  /** A control character without a short escape is written `\u00xx`. */
  lemma {:induction false} HexEscapeStep(c: char, tail: string)
    requires c as int < 0x20 && c != '\n' && c != '\r' && c != '\t' && c as int != 0x08 && c as int != 0x0C
    ensures ParseString(EscapeChar(c) + tail) == Prepend(c, ParseString(tail))
  {
    var a, b := c as int / 16, c as int % 16;
    var s := ['\\', 'u', '0', '0', HexChar(a), HexChar(b)] + tail;
    assert EscapeChar(c) + tail == s;
    HexRoundTrip(a);
    HexRoundTrip(b);
    assert s[1..][1..5] == ['0', '0', HexChar(a), HexChar(b)];
    assert Hex4(s[1..][1..5]) == Some(c as int);
    assert s[1..][5..] == tail;
  }

  /** A quote, a backslash or a control character with a short escape is written as two characters. */
  lemma {:induction false} ShortEscapeStep(c: char, tail: string)
    requires !(c as int < 0x20 && c != '\n' && c != '\r' && c != '\t' && c as int != 0x08 && c as int != 0x0C)
    requires EscapeChar(c) != [c]
    ensures ParseString(EscapeChar(c) + tail) == Prepend(c, ParseString(tail))
  {
    var s := EscapeChar(c) + tail;
    assert |EscapeChar(c)| == 2 && EscapeChar(c)[0] == '\\';
    assert s[0] == '\\' && s[1..] == [EscapeChar(c)[1]] + tail;
  }

  lemma {:induction false} StringRoundTrip(str: string, rest: string)
    ensures ParseString(Escape(str) + "\"" + rest) == Some((str, rest))
  {
    if str == [] {
      assert Escape(str) + "\"" + rest == "\"" + rest;
    } else {
      var tail := Escape(str[1..]) + "\"" + rest;
      assert Escape(str) + "\"" + rest == EscapeChar(str[0]) + tail;
      EscapeCharStep(str[0], tail);
      StringRoundTrip(str[1..], rest);
      assert [str[0]] + str[1..] == str;
    }
  }

  /** Every serialized value starts with a character that selects its own case in ParseValue. */
  lemma {:induction false} ValueRoundTrip(j: Json, rest: string)
    requires rest == [] || !IsDigit(rest[0])
    ensures ParseValue(Serialize(j) + rest) == Some((j, rest))
    decreases j, 2
  {
    match j
    case JArr(items) => ArrayRoundTrip(items, rest);
    case JObj(fields) => ObjectRoundTrip(fields, rest);
    case _ => ScalarRoundTrip(j, rest);
  }

  lemma {:induction false} ScalarRoundTrip(j: Json, rest: string)
    requires !j.JArr? && !j.JObj?
    requires rest == [] || !IsDigit(rest[0])
    ensures ParseValue(Serialize(j) + rest) == Some((j, rest))
  {
    var s := Serialize(j) + rest;
    assert SkipWs(s) == s;
    assert s[0] != '[' && s[0] != '{';
    ScalarTextRoundTrip(j, rest);
  }

  lemma {:induction false} ScalarTextRoundTrip(j: Json, rest: string)
    requires !j.JArr? && !j.JObj?
    requires rest == [] || !IsDigit(rest[0])
    ensures ParseScalar(Serialize(j) + rest) == Some((j, rest))
  {
    var s := Serialize(j) + rest;
    match j
    case JNull =>
      assert s[..4] == "null" && s[4..] == rest;
    case JBool(b) =>
      if b {
        assert s[..4] == "true" && s[4..] == rest;
      } else {
        assert s[..5] == "false" && s[5..] == rest;
      }
    case JNum(n) =>
        IntRoundTrip(n, rest);
    case JStr(str) =>
      StrRoundTrip(str, rest);
  }

  lemma {:induction false} StrRoundTrip(str: string, rest: string)
    ensures ParseScalar(Serialize(JStr(str)) + rest) == Some((JStr(str), rest))
  {
    var s := Serialize(JStr(str)) + rest;
    assert s[0] == '"' && s[1..] == Escape(str) + "\"" + rest;
    StringRoundTrip(str, rest);
  }

  lemma {:induction false} ArrayRoundTrip(items: seq<Json>, rest: string)
    ensures ParseValue(Serialize(JArr(items)) + rest) == Some((JArr(items), rest))
    decreases items, 1
  {
    var u := SerializeItems(items) + "]" + rest;
    assert Serialize(JArr(items)) + rest == "[" + u;
    if items == [] {
      assert u == "]" + rest;
      OpenBracket("]" + rest);
      assert ("]" + rest)[1..] == rest;
    } else {
      ItemsStart(items, rest);
      OpenBracket(u);
      ItemsRoundTrip(items, rest);
    }
  }

  lemma {:induction false} ItemsStart(items: seq<Json>, rest: string)
    requires items != []
    ensures (SerializeItems(items) + "]" + rest)[0] == Serialize(items[0])[0]
  {
  }

  /** After an opening bracket and no whitespace, ParseValue hands the rest to ParseArray unchanged. */
  lemma {:induction false} OpenBracket(u: string)
    requires u != [] && !IsWs(u[0])
    ensures ParseValue("[" + u) == ParseArray(u) && SkipWs(u) == u
  {
    assert ("[" + u)[0] == '[' && ("[" + u)[1..] == u;
  }

  /** After an opening brace and no whitespace, ParseValue hands the rest to ParseObject unchanged. */
  lemma {:induction false} OpenBrace(u: string)
    requires u != [] && !IsWs(u[0])
    ensures ParseValue("{" + u) == ParseObject(u) && SkipWs(u) == u
  {
    assert ("{" + u)[0] == '{' && ("{" + u)[1..] == u;
  }

  lemma {:induction false} ObjectRoundTrip(fields: seq<Field>, rest: string)
    ensures ParseValue(Serialize(JObj(fields)) + rest) == Some((JObj(fields), rest))
    decreases fields, 1
  {
    var u := SerializeFields(fields) + "}" + rest;
    assert Serialize(JObj(fields)) + rest == "{" + u;
    if fields == [] {
      assert u == "}" + rest;
      OpenBrace("}" + rest);
      assert ("}" + rest)[1..] == rest;
    } else {
      FieldsStart(fields, rest);
      OpenBrace(u);
      FieldsRoundTrip(fields, rest);
    }
  }

  lemma {:induction false} FieldsStart(fields: seq<Field>, rest: string)
    requires fields != []
    ensures (SerializeFields(fields) + "}" + rest)[0] == '"'
  {
  }

  lemma {:induction false} ItemsRoundTrip(items: seq<Json>, rest: string)
    requires items != []
    ensures ParseItems(SerializeItems(items) + "]" + rest) == Some((items, rest))
    decreases items, 0
  {
    var v := items[0];
    if |items| == 1 {
      assert SerializeItems(items) + "]" + rest == Serialize(v) + ("]" + rest);
      ValueRoundTrip(v, "]" + rest);
      LastItem(v, rest);
      assert [v] == items;
    } else {
      var more := SerializeItems(items[1..]) + "]" + rest;
      assert SerializeItems(items) + "]" + rest == Serialize(v) + ("," + more);
      ValueRoundTrip(v, "," + more);
      ItemsRoundTrip(items[1..], rest);
      NextItem(v, more, items[1..], rest);
      assert [v] + items[1..] == items;
    }
  }

  /** An element followed by the closing bracket: ParseItems reads it and stops after the bracket. */
  lemma {:induction false} LastItem(v: Json, rest: string)
    requires ParseValue(Serialize(v) + ("]" + rest)) == Some((v, "]" + rest))
    ensures ParseItems(Serialize(v) + ("]" + rest)) == Some(([v], rest))
  {
    var after := "]" + rest;
    assert SkipWs(after) == after && after[1..] == rest;
  }

  /** An element followed by a comma: ParseItems reads it and goes on with the elements after the comma. */
  lemma {:induction false} NextItem(v: Json, more: string, vs: seq<Json>, rest: string)
    requires ParseValue(Serialize(v) + ("," + more)) == Some((v, "," + more))
    requires ParseItems(more) == Some((vs, rest))
    ensures ParseItems(Serialize(v) + ("," + more)) == Some(([v] + vs, rest))
  {
    var after := "," + more;
    assert SkipWs(after) == after && after[1..] == more;
  }

  /** A quoted key followed by any text: the string parser reads the key back and stops after it. */
  lemma {:induction false} QuotedKey(key: string, u: string)
    ensures (Quote(key) + u)[0] == '"'
    ensures ParseString((Quote(key) + u)[1..]) == Some((key, u))
  {
    assert (Quote(key) + u)[1..] == Escape(key) + "\"" + u;
    StringRoundTrip(key, u);
  }

  /** A quoted key, a colon and the text of a value: ParseMember reads the member back. */
  lemma {:induction false} ParseMemberOf(key: string, value: string, v: Json, after: string)
    requires ParseValue(value) == Some((v, after))
    ensures ParseMember(Quote(key) + (":" + value)) == Some((Field(key, v), after))
  {
    var u := ":" + value;
    var s := Quote(key) + u;
    QuotedKey(key, u);
    assert SkipWs(s) == s;
    assert SkipWs(u) == u && u[1..] == value;
  }

  lemma {:induction false} MemberRoundTrip(f: Field, after: string)
    requires ParseValue(Serialize(f.value) + after) == Some((f.value, after))
    ensures ParseMember(SerializeField(f) + after) == Some((f, after))
  {
    var value := Serialize(f.value) + after;
    assert SerializeField(f) + after == Quote(f.key) + (":" + value);
    ParseMemberOf(f.key, value, f.value, after);
  }

  /** A member followed by a comma: ParseFields reads it and goes on with the members after the comma. */
  lemma {:induction false} NextField(f: Field, more: string, fs: seq<Field>, rest: string)
    requires ParseValue(Serialize(f.value) + ("," + more)) == Some((f.value, "," + more))
    requires ParseFields(more) == Some((fs, rest))
    ensures ParseFields(SerializeField(f) + ("," + more)) == Some(([f] + fs, rest))
  {
    var after := "," + more;
    MemberRoundTrip(f, after);
    assert SkipWs(after) == after && after[1..] == more;
  }

  lemma {:induction false} FieldsText(fields: seq<Field>, rest: string)
    requires |fields| >= 2
    ensures SerializeFields(fields) + "}" + rest
         == SerializeField(fields[0]) + ("," + (SerializeFields(fields[1..]) + "}" + rest))
  {
  }

  lemma {:induction false} FieldsRoundTrip(fields: seq<Field>, rest: string)
    requires fields != []
    ensures ParseFields(SerializeFields(fields) + "}" + rest) == Some((fields, rest))
    decreases fields, 0
  {
    var f := fields[0];
    if |fields| == 1 {
      LastFieldRoundTrip(f, rest);
      assert [f] == fields;
    } else {
      var more := SerializeFields(fields[1..]) + "}" + rest;
      FieldsText(fields, rest);
      assert ("," + more)[0] == ',';
      ValueRoundTrip(f.value, "," + more);
      FieldsRoundTrip(fields[1..], rest);
      NextField(f, more, fields[1..], rest);
      assert [f] + fields[1..] == fields;
    }
  }

  lemma {:induction false} LastFieldRoundTrip(f: Field, rest: string)
    ensures ParseFields(SerializeFields([f]) + "}" + rest) == Some(([f], rest))
    decreases f, 0
  {
    assert SerializeFields([f]) + "}" + rest == SerializeField(f) + ("}" + rest);
    ValueRoundTrip(f.value, "}" + rest);
    LastField(f, rest);
  }

  /** A member followed by the closing brace: ParseFields reads it and stops after the brace. */
  lemma {:induction false} LastField(f: Field, rest: string)
    requires ParseValue(Serialize(f.value) + ("}" + rest)) == Some((f.value, "}" + rest))
    ensures ParseFields(SerializeField(f) + ("}" + rest)) == Some(([f], rest))
  {
    var after := "}" + rest;
    MemberRoundTrip(f, after);
    assert SkipWs(after) == after && after[1..] == rest;
  }

  /** JSON.parse(JSON.stringify(j)) gives back j. */
  lemma {:induction false} RoundTrip(j: Json)
    ensures Parse(Serialize(j)) == Some(j)
  {
    ValueRoundTrip(j, []);
    assert Serialize(j) + [] == Serialize(j);
  }
}
