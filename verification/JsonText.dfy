/**
 The compact JSON text of a value, escaped to ASCII, and a parser that reads it back
 (RFC 8259, sections 2 to 7, for values without fractions or exponents).
 */
module JsonText {
  import opened Common
  import opened Json

  // ---------------------------------------------------------------------------
  // Hexadecimal and decimal digits
  // ---------------------------------------------------------------------------

  const HEX_DIGITS: string := "0123456789abcdef"

  function HexValue(c: char): (d: Option<nat>)
    ensures d.Some? ==> d.value < 16
  {
    if '0' <= c <= '9' then Some(c as int - '0' as int)
    else if 'a' <= c <= 'f' then Some(c as int - 'a' as int + 10)
    else None
  }

  lemma HexDigitRoundTrip(d: nat)
    requires d < 16
    ensures HexValue(HEX_DIGITS[d]) == Some(d)
  {
    var hex := HEX_DIGITS;
    assert hex[d] == if d < 10 then ('0' as int + d) as char else ('a' as int + d - 10) as char;
  }

  function Hex4(n: nat): (s: string)
    requires n < 0x10000
    ensures |s| == 4
  {
    [HEX_DIGITS[n / 0x1000], HEX_DIGITS[n / 0x100 % 0x10],
     HEX_DIGITS[n / 0x10 % 0x10], HEX_DIGITS[n % 0x10]]
  }

  function ParseHex4(s: string): (r: Option<nat>)
    ensures r.Some? ==> |s| >= 4 && r.value < 0x10000
  {
    if |s| < 4 then None
    else
      match (HexValue(s[0]), HexValue(s[1]), HexValue(s[2]), HexValue(s[3]))
      case (Some(a), Some(b), Some(c), Some(d)) => Some(a * 0x1000 + b * 0x100 + c * 0x10 + d)
      case _ => None
  }

  lemma HexPlaces(n: nat)
    requires n < 0x10000
    ensures n == n / 0x1000 * 0x1000 + n / 0x100 % 0x10 * 0x100 + n / 0x10 % 0x10 * 0x10 + n % 0x10
  {
    assert n / 0x10 == n / 0x100 * 0x10 + n / 0x10 % 0x10;
    assert n / 0x100 == n / 0x1000 * 0x10 + n / 0x100 % 0x10;
  }

  lemma Hex4RoundTrip(n: nat, rest: string)
    requires n < 0x10000
    ensures ParseHex4(Hex4(n) + rest) == Some(n)
  {
    var places := [n / 0x1000, n / 0x100 % 0x10, n / 0x10 % 0x10, n % 0x10];
    HexPlaces(n);
    Hex4Digits(places[0], places[1], places[2], places[3], rest);
  }

  lemma Hex4Digits(a: nat, b: nat, c: nat, d: nat, rest: string)
    requires a < 16 && b < 16 && c < 16 && d < 16
    ensures ParseHex4([HEX_DIGITS[a], HEX_DIGITS[b], HEX_DIGITS[c], HEX_DIGITS[d]] + rest)
      == Some(a * 0x1000 + b * 0x100 + c * 0x10 + d)
  {
    HexDigitRoundTrip(a);
    HexDigitRoundTrip(b);
    HexDigitRoundTrip(c);
    HexDigitRoundTrip(d);
  }

  predicate IsDigit(c: char) {
    '0' <= c <= '9'
  }

  function Decimal(n: nat): (s: string)
    ensures s != "" && forall i :: 0 <= i < |s| ==> IsDigit(s[i])
  {
    var digit := ('0' as int + n % 10) as char;
    if n < 10 then [digit] else Decimal(n / 10) + [digit]
  }

  function DecimalValue(s: string): nat
    requires forall i :: 0 <= i < |s| ==> IsDigit(s[i])
  {
    if s == "" then 0
    else
      var last := s[|s| - 1];
      assert IsDigit(last);
      var digit: nat := last as int - '0' as int;
      DecimalValue(s[..|s| - 1]) * 10 + digit
  }

  lemma {:induction false} DecimalRoundTrip(n: nat)
    ensures DecimalValue(Decimal(n)) == n
  {
    var s := Decimal(n);
    if n >= 10 {
      DecimalRoundTrip(n / 10);
      assert s[..|s| - 1] == Decimal(n / 10);
    } else {
      assert s[..0] == "";
    }
  }

  // ---------------------------------------------------------------------------
  // Strings: one character at a time
  // ---------------------------------------------------------------------------

  const BACKSPACE := '\U{08}'
  const FORM_FEED := '\U{0C}'

  /** The character as it appears between quotes: ASCII only, two escapes above U+FFFF. */
  function Escape(c: char): (s: string)
    ensures s != "" && s[0] != '"'
  {
    var n := c as int;
    if c == '"' then "\\\""
    else if c == '\\' then "\\\\"
    else if c == '\n' then "\\n"
    else if c == '\r' then "\\r"
    else if c == '\t' then "\\t"
    else if c == FORM_FEED then "\\f"
    else if c == BACKSPACE then "\\b"
    else if 0x20 <= n <= 0x7E then [c]
    else if n < 0x10000 then "\\u" + Hex4(n)
    else
      "\\u" + Hex4(0xD800 + (n - 0x10000) / 0x400)
      + "\\u" + Hex4(0xDC00 + (n - 0x10000) % 0x400)
  }

  /** One character and the text after it. */
  function ParseChar(s: string): (r: Option<(char, string)>)
    requires s != ""
    ensures r.Some? ==> |r.value.1| < |s|
  {
    if s[0] != '\\' then
      if s[0] as int < 0x20 then None else Some((s[0], s[1..]))
    else if |s| < 2 then None
    else
      var rest := s[2..];
      match s[1]
      case '"' => Some(('"', rest))
      case '\\' => Some(('\\', rest))
      case '/' => Some(('/', rest))
      case 'n' => Some(('\n', rest))
      case 'r' => Some(('\r', rest))
      case 't' => Some(('\t', rest))
      case 'f' => Some((FORM_FEED, rest))
      case 'b' => Some((BACKSPACE, rest))
      case 'u' =>
        (match ParseHex4(rest)
         case None => None
         case Some(n) =>
           if n < 0xD800 || n >= 0xE000 then Some((n as char, rest[4..]))
           else ParseLowSurrogate(n, rest[4..]))
      case _ => None
  }

  function ParseLowSurrogate(high: nat, s: string): (r: Option<(char, string)>)
    ensures r.Some? ==> |r.value.1| < |s|
  {
    if 0xD800 <= high < 0xDC00 && |s| >= 2 && s[..2] == "\\u" && ParseHex4(s[2..]).Some? then
      var low := ParseHex4(s[2..]).value;
      if 0xDC00 <= low < 0xE000
      then Some(((0x10000 + (high - 0xD800) * 0x400 + (low - 0xDC00)) as char, s[6..]))
      else None
    else None
  }

  lemma EscapeRoundTrip(c: char, rest: string)
    ensures ParseChar(Escape(c) + rest) == Some((c, rest))
  {
    var n, s := c as int, Escape(c) + rest;
    if |Escape(c)| == 1 {
      assert s[1..] == rest;
    } else if |Escape(c)| == 2 {
      assert s[2..] == rest;
    } else if n < 0x10000 {
      UnicodeEscapeRoundTrip(n, rest);
    } else {
      SurrogatesRoundTrip(c, rest);
    }
  }

  lemma SurrogatesRoundTrip(c: char, rest: string)
    requires c as int >= 0x10000
    ensures ParseChar(Escape(c) + rest) == Some((c, rest))
  {
    var high, low := Surrogates(c);
    var tail := "\\u" + Hex4(low) + rest;
    LowSurrogateRoundTrip(high, low, rest);
    UnicodeEscapeRoundTrip(high, tail);
    RegroupEscapes("\\u", Hex4(high), Hex4(low), rest);
  }

  lemma Surrogates(c: char) returns (high: nat, low: nat)
    requires c as int >= 0x10000
    ensures 0xD800 <= high < 0xDC00 <= low < 0xE000
    ensures c as int == 0x10000 + (high - 0xD800) * 0x400 + (low - 0xDC00)
    ensures Escape(c) == "\\u" + Hex4(high) + "\\u" + Hex4(low)
  {
    var m := c as int - 0x10000;
    high, low := 0xD800 + m / 0x400, 0xDC00 + m % 0x400;
    HalvesOfSurrogate(m);
    EscapedAstral(c, high, low);
  }

  lemma EscapedAstral(c: char, high: nat, low: nat)
    requires c as int >= 0x10000 && high < 0x10000 && low < 0x10000
    requires high == 0xD800 + (c as int - 0x10000) / 0x400
    requires low == 0xDC00 + (c as int - 0x10000) % 0x400
    ensures Escape(c) == "\\u" + Hex4(high) + "\\u" + Hex4(low)
  {
  }

  lemma HalvesOfSurrogate(m: nat)
    requires m < 0x100000
    ensures m / 0x400 < 0x400 && m == m / 0x400 * 0x400 + m % 0x400
  {
  }

  lemma RegroupEscapes(u: string, high: string, low: string, rest: string)
    ensures u + high + u + low + rest == u + high + (u + low + rest)
  {
  }

  lemma UnicodeEscapeRoundTrip(n: nat, tail: string)
    requires n < 0x10000
    ensures ParseChar("\\u" + Hex4(n) + tail)
      == if n < 0xD800 || n >= 0xE000 then Some((n as char, tail)) else ParseLowSurrogate(n, tail)
  {
    var s := "\\u" + Hex4(n) + tail;
    assert s[2..] == Hex4(n) + tail && s[2..][4..] == tail;
    Hex4RoundTrip(n, tail);
  }

  lemma LowSurrogateRoundTrip(high: nat, low: nat, rest: string)
    requires 0xD800 <= high < 0xDC00 <= low < 0xE000
    ensures ParseLowSurrogate(high, "\\u" + Hex4(low) + rest)
      == Some(((0x10000 + (high - 0xD800) * 0x400 + (low - 0xDC00)) as char, rest))
  {
    var s := "\\u" + Hex4(low) + rest;
    assert s[..2] == "\\u" && s[2..] == Hex4(low) + rest && s[6..] == rest;
    Hex4RoundTrip(low, rest);
  }

  function EscapeAll(s: string): string {
    if s == "" then "" else Escape(s[0]) + EscapeAll(s[1..])
  }

  /** The characters up to the closing quote, and the text after it. */
  function ParseString(s: string): (r: Option<(string, string)>)
    ensures r.Some? ==> |r.value.1| < |s|
    decreases |s|
  {
    if s == "" then None
    else if s[0] == '"' then Some(("", s[1..]))
    else
      match ParseChar(s)
      case None => None
      case Some((c, rest)) =>
        match ParseString(rest)
        case None => None
        case Some((tail, after)) => Some(([c] + tail, after))
  }

  lemma {:induction false} StringRoundTrip(s: string, rest: string)
    ensures ParseString(EscapeAll(s) + "\"" + rest) == Some((s, rest))
  {
    var text := EscapeAll(s) + "\"" + rest;
    if s == "" {
      assert text[0] == '"' && text[1..] == rest;
    } else {
      var tail := EscapeAll(s[1..]) + "\"" + rest;
      Regroup(Escape(s[0]), EscapeAll(s[1..]), "\"", rest);
      StringRoundTrip(s[1..], rest);
      ParseStringStep(s[0], tail, s[1..], rest);
      assert s == [s[0]] + s[1..];
    }
  }

  lemma ParseStringStep(c: char, tail: string, s: string, rest: string)
    requires ParseString(tail) == Some((s, rest))
    ensures ParseString(Escape(c) + tail) == Some(([c] + s, rest))
  {
    EscapeRoundTrip(c, tail);
    assert (Escape(c) + tail)[0] == Escape(c)[0];
  }

  // ---------------------------------------------------------------------------
  // Values
  // ---------------------------------------------------------------------------

  function Print(v: Json): (s: string)
    ensures s != ""
    decreases v
  {
    match v
    case Null => "null"
    case Bool(b) => if b then "true" else "false"
    case Int(n) => if n < 0 then "-" + Decimal(-n) else Decimal(n)
    case Str(s) => "\"" + EscapeAll(s) + "\""
    case Arr(items) => "[" + PrintItems(items) + "]"
    case Obj(es) => "{" + PrintEntries(es) + "}"
  }

  function PrintItems(items: seq<Json>): string
    decreases items
  {
    if items == [] then ""
    else Print(items[0]) + (if |items| == 1 then "" else "," + PrintItems(items[1..]))
  }

  function PrintEntries(es: seq<Entry>): string
    decreases es
  {
    if es == [] then ""
    else
      "\"" + EscapeAll(es[0].key) + "\":" + Print(es[0].value)
      + (if |es| == 1 then "" else "," + PrintEntries(es[1..]))
  }

  function DigitCount(s: string): (n: nat)
    ensures n <= |s| && forall i :: 0 <= i < n ==> IsDigit(s[i])
  {
    if s != "" && IsDigit(s[0]) then 1 + DigitCount(s[1..]) else 0
  }

  function ParseInt(s: string): (r: Option<(int, string)>)
    ensures r.Some? ==> |r.value.1| < |s|
  {
    var negative := s != "" && s[0] == '-';
    var digits := if negative then s[1..] else s;
    var n := DigitCount(digits);
    if n == 0 then None
    else
      var magnitude: int := DecimalValue(digits[..n]);
      Some((if negative then -magnitude else magnitude, digits[n..]))
  }

  function ParseValue(s: string): (r: Option<(Json, string)>)
    ensures r.Some? ==> |r.value.1| < |s|
    decreases |s|, 0
  {
    if s == "" then None
    else
      match s[0]
      case 'n' => if "null" <= s then Some((Null, s[4..])) else None
      case 't' => if "true" <= s then Some((Bool(true), s[4..])) else None
      case 'f' => if "false" <= s then Some((Bool(false), s[5..])) else None
      case '"' =>
        (match ParseString(s[1..])
         case None => None
         case Some((text, rest)) => Some((Str(text), rest)))
      case '[' =>
        if |s| > 1 && s[1] == ']' then Some((Arr([]), s[2..]))
        else
          (match ParseItems(s[1..])
           case None => None
           case Some((items, rest)) => Some((Arr(items), rest)))
      case '{' =>
        if |s| > 1 && s[1] == '}' then Some((Obj([]), s[2..]))
        else
          (match ParseEntries(s[1..])
           case None => None
           case Some((es, rest)) => Some((Obj(es), rest)))
      case _ =>
        match ParseInt(s)
        case None => None
        case Some((n, rest)) => Some((Int(n), rest))
  }

  function ParseItems(s: string): (r: Option<(seq<Json>, string)>)
    ensures r.Some? ==> |r.value.1| < |s|
    decreases |s|, 1
  {
    match ParseValue(s)
    case None => None
    case Some((v, rest)) =>
      if rest == "" then None
      else if rest[0] == ']' then Some(([v], rest[1..]))
      else if rest[0] != ',' then None
      else
        match ParseItems(rest[1..])
        case None => None
        case Some((vs, after)) => Some(([v] + vs, after))
  }

  function ParseEntries(s: string): (r: Option<(seq<Entry>, string)>)
    ensures r.Some? ==> |r.value.1| < |s|
    decreases |s|, 1
  {
    if s == "" || s[0] != '"' then None
    else
      match ParseString(s[1..])
      case None => None
      case Some((key, colon)) =>
        if colon == "" || colon[0] != ':' then None
        else
          match ParseValue(colon[1..])
          case None => None
          case Some((v, rest)) =>
            if rest == "" then None
            else if rest[0] == '}' then Some(([Entry(key, v)], rest[1..]))
            else if rest[0] != ',' then None
            else
              match ParseEntries(rest[1..])
              case None => None
              case Some((es, after)) => Some(([Entry(key, v)] + es, after))
  }

  /** What may follow a value: anything that does not prolong a number. */
  predicate EndsNumber(rest: string) {
    rest == "" || !IsDigit(rest[0])
  }

  lemma {:induction false} DigitCountStops(digits: string, rest: string)
    requires forall i :: 0 <= i < |digits| ==> IsDigit(digits[i])
    requires EndsNumber(rest)
    ensures DigitCount(digits + rest) == |digits|
  {
    if digits == "" {
      assert digits + rest == rest;
    } else {
      DigitCountStops(digits[1..], rest);
      assert (digits + rest)[1..] == digits[1..] + rest;
    }
  }

  lemma IntRoundTrip(n: int, rest: string)
    requires EndsNumber(rest)
    ensures ParseValue(Print(Int(n)) + rest) == Some((Int(n), rest))
  {
    var magnitude: nat := if n < 0 then -n else n;
    var digits := Decimal(magnitude);
    DigitCountStops(digits, rest);
    DecimalRoundTrip(magnitude);
    SignFirst(n, digits, rest);
    ParseDigits(digits, rest, n < 0);
    ParseValueReadsInt(Print(Int(n)) + rest);
  }

  lemma SignFirst(n: int, digits: string, rest: string)
    requires digits == Decimal(if n < 0 then -n else n)
    ensures var s := Print(Int(n)) + rest;
      && s == (if n < 0 then "-" else "") + (digits + rest)
      && (s[0] == '-' || IsDigit(s[0]))
  {
    assert IsDigit(digits[0]);
  }

  lemma ParseDigits(digits: string, rest: string, negative: bool)
    requires forall i :: 0 <= i < |digits| ==> IsDigit(digits[i])
    requires digits != "" && DigitCount(digits + rest) == |digits|
    ensures var magnitude: int := DecimalValue(digits);
      ParseInt((if negative then "-" else "") + (digits + rest))
        == Some((if negative then -magnitude else magnitude, rest))
  {
    var s := (if negative then "-" else "") + (digits + rest);
    assert IsDigit(digits[0]);
    assert (if negative then s[1..] else s) == digits + rest;
    assert (digits + rest)[..|digits|] == digits && (digits + rest)[|digits|..] == rest;
  }

  lemma ParseValueReadsInt(s: string)
    requires s != "" && (s[0] == '-' || IsDigit(s[0])) && ParseInt(s).Some?
    ensures ParseValue(s) == Some((Int(ParseInt(s).value.0), ParseInt(s).value.1))
  {
  }

  lemma KeywordRoundTrip(v: Json, rest: string)
    requires v.Null? || v.Bool?
    ensures ParseValue(Print(v) + rest) == Some((v, rest))
  {
    var s := Print(v) + rest;
    assert Print(v) <= s && s[|Print(v)|..] == rest;
  }

  /** One unfolding of the parser on each bracketed form. */
  lemma ParseValueOpens(t: string)
    requires t != ""
    ensures t[0] != ']' && ParseItems(t).Some? ==>
      ParseValue("[" + t) == Some((Arr(ParseItems(t).value.0), ParseItems(t).value.1))
    ensures t[0] == ']' ==> ParseValue("[" + t) == Some((Arr([]), t[1..]))
    ensures t[0] != '}' && ParseEntries(t).Some? ==>
      ParseValue("{" + t) == Some((Obj(ParseEntries(t).value.0), ParseEntries(t).value.1))
    ensures t[0] == '}' ==> ParseValue("{" + t) == Some((Obj([]), t[1..]))
    ensures ParseString(t).Some? ==>
      ParseValue("\"" + t) == Some((Str(ParseString(t).value.0), ParseString(t).value.1))
  {
    assert ("[" + t)[1..] == t && ("[" + t)[2..] == t[1..];
    assert ("{" + t)[1..] == t && ("{" + t)[2..] == t[1..];
    assert ("\"" + t)[1..] == t;
  }

  lemma Regroup(a: string, b: string, c: string, d: string)
    ensures a + b + c + d == a + (b + c + d)
    ensures a + (b + c) == a + b + c
  {
  }

  lemma {:induction false} ValueRoundTrip(v: Json, rest: string)
    requires EndsNumber(rest)
    ensures ParseValue(Print(v) + rest) == Some((v, rest))
    decreases v
  {
    match v
    case Null => KeywordRoundTrip(v, rest);
    case Bool(b) => KeywordRoundTrip(v, rest);
    case Int(n) => IntRoundTrip(n, rest);
    case Str(text) =>
      StringRoundTrip(text, rest);
      ParseValueOpens(EscapeAll(text) + "\"" + rest);
      Regroup("\"", EscapeAll(text), "\"", rest);
    case Arr(items) =>
      if items != [] { ItemsRoundTrip(items, rest); }
      ArrayRoundTrip(items, rest);
    case Obj(es) =>
      if es != [] { EntriesRoundTrip(es, rest); }
      ObjectRoundTrip(es, rest);
  }

  lemma ArrayRoundTrip(items: seq<Json>, rest: string)
    requires items != [] ==> ParseItems(PrintItems(items) + "]" + rest) == Some((items, rest))
    ensures ParseValue(Print(Arr(items)) + rest) == Some((Arr(items), rest))
  {
    var t := PrintItems(items) + "]" + rest;
    ParseValueOpens(t);
    Regroup("[", PrintItems(items), "]", rest);
    if items == [] {
      assert t == "]" + rest && t[1..] == rest;
    } else {
      PrintStartsValue(items[0]);
      assert t[0] == PrintItems(items)[0] == Print(items[0])[0];
    }
  }

  lemma ObjectRoundTrip(es: seq<Entry>, rest: string)
    requires es != [] ==> ParseEntries(PrintEntries(es) + "}" + rest) == Some((es, rest))
    ensures ParseValue(Print(Obj(es)) + rest) == Some((Obj(es), rest))
  {
    var t := PrintEntries(es) + "}" + rest;
    ParseValueOpens(t);
    Regroup("{", PrintEntries(es), "}", rest);
    if es == [] {
      assert t == "}" + rest && t[1..] == rest;
    } else {
      assert t[0] == PrintEntries(es)[0] == '"';
    }
  }

  lemma PrintStartsValue(v: Json)
    ensures Print(v)[0] != ']'
  {
  }

  /** The text after the head of a printed list. */
  function Continue(tail: string, isLast: bool, close: string): string {
    if isLast then close else "," + tail + close
  }

  lemma {:induction false} ItemsRoundTrip(items: seq<Json>, rest: string)
    requires items != []
    ensures ParseItems(PrintItems(items) + "]" + rest) == Some((items, rest))
    decreases items
  {
    var head, tail := Print(items[0]), if |items| == 1 then "" else PrintItems(items[1..]);
    var more := Continue(tail, |items| == 1, "]" + rest);
    ValueRoundTrip(items[0], more);
    if |items| == 1 {
      assert PrintItems(items) == head by { assert head + "" == head; }
      Regroup(head, "]", rest, "");
      assert more[1..] == rest && items == [items[0]];
    } else {
      RegroupList(head, tail, "]", rest);
      ItemsRoundTrip(items[1..], rest);
      assert items == [items[0]] + items[1..];
    }
  }

  lemma RegroupList(head: string, tail: string, close: string, rest: string)
    ensures head + ("," + tail) + close + rest == head + ("," + tail + (close + rest))
    ensures ("," + tail + (close + rest))[1..] == tail + close + rest
  {
  }

  lemma KeyRoundTrip(key: string, after: string)
    ensures var s := "\"" + EscapeAll(key) + "\":" + after;
      s[0] == '"' && ParseString(s[1..]) == Some((key, ":" + after))
  {
    StringRoundTrip(key, ":" + after);
    QuotedKey(EscapeAll(key), after);
  }

  lemma QuotedKey(escaped: string, after: string)
    ensures var s := "\"" + escaped + "\":" + after;
      s[0] == '"' && s[1..] == escaped + "\"" + (":" + after)
  {
    var n := |escaped|;
    var s, t := "\"" + escaped + "\":" + after, escaped + "\"" + (":" + after);
    forall i | 0 <= i < |t| ensures s[1 + i] == t[i] {
      if i >= n + 2 { assert s[1 + i] == after[i - n - 2] == t[i]; }
    }
  }

  lemma ParseEntriesStep(e: Entry, more: string, text: string)
    requires text == "\"" + EscapeAll(e.key) + "\":" + (Print(e.value) + more)
    requires more != "" && ParseValue(Print(e.value) + more) == Some((e.value, more))
    ensures more[0] == '}' ==> ParseEntries(text) == Some(([e], more[1..]))
    ensures more[0] == ',' && ParseEntries(more[1..]).Some? ==>
      var (es, after) := ParseEntries(more[1..]).value;
      ParseEntries(text) == Some(([e] + es, after))
  {
    KeyRoundTrip(e.key, Print(e.value) + more);
    assert (":" + (Print(e.value) + more))[1..] == Print(e.value) + more;
  }

  lemma RegroupEntry(key: string, head: string, tail: string, isLast: bool, rest: string)
    ensures key + head + (if isLast then "" else "," + tail) + "}" + rest
      == key + (head + Continue(tail, isLast, "}" + rest))
    ensures Continue(tail, isLast, "}" + rest)[1..] == if isLast then rest else tail + "}" + rest
  {
    if isLast {
      assert key + head + "" == key + head;
      Regroup(key, head, "}", rest);
    } else {
      RegroupList(key + head, tail, "}", rest);
      Regroup(key, head, "," + tail + ("}" + rest), "");
    }
  }

  /** A printed list of entries is its first entry and what continues it. */
  lemma FirstEntryText(es: seq<Entry>, rest: string) returns (more: string)
    requires es != []
    ensures PrintEntries(es) + "}" + rest
      == "\"" + EscapeAll(es[0].key) + "\":" + (Print(es[0].value) + more)
    ensures |es| == 1 ==> more == "}" + rest && more[1..] == rest
    ensures |es| > 1 ==> more != "" && more[0] == ',' && more[1..] == PrintEntries(es[1..]) + "}" + rest
  {
    var tail := if |es| == 1 then "" else PrintEntries(es[1..]);
    more := Continue(tail, |es| == 1, "}" + rest);
    RegroupEntry(
      "\"" + EscapeAll(es[0].key) + "\":", Print(es[0].value), tail, |es| == 1, rest);
  }

  lemma {:induction false} EntriesRoundTrip(es: seq<Entry>, rest: string)
    requires es != []
    ensures ParseEntries(PrintEntries(es) + "}" + rest) == Some((es, rest))
    decreases es
  {
    var text := PrintEntries(es) + "}" + rest;
    var more := FirstEntryText(es, rest);
    ValueRoundTrip(es[0].value, more);
    if |es| == 1 {
      assert es == [es[0]];
    } else {
      assert es == [es[0]] + es[1..];
      EntriesRoundTrip(es[1..], rest);
    }
    ParseEntriesStep(es[0], more, text);
  }

  function Parse(s: string): Option<Json> {
    match ParseValue(s)
    case Some((v, "")) => Some(v)
    case _ => None
  }

  /** Reading the compact text back gives the value, entry order included. */
  lemma ParseInvertsPrint(v: Json)
    ensures Parse(Print(v)) == Some(v)
  {
    assert Print(v) + "" == Print(v);
    ValueRoundTrip(v, "");
  }

  // ---------------------------------------------------------------------------
  // The text itself
  // ---------------------------------------------------------------------------

  /** Only printable ASCII characters. */
  predicate Plain(s: string) {
    forall i :: 0 <= i < |s| ==> ' ' <= s[i] <= '~'
  }

  lemma PlainParts(a: string, b: string)
    requires Plain(a) && Plain(b)
    ensures Plain(a + b)
  {
  }

  lemma PlainHex(n: nat)
    requires n < 0x10000
    ensures Plain(Hex4(n))
  {
    var hex := HEX_DIGITS;
    assert Plain(hex);
  }

  lemma EscapesArePlain(c: char)
    ensures Plain(Escape(c))
  {
    var n := c as int;
    if n >= 0x10000 {
      var high, low := 0xD800 + (n - 0x10000) / 0x400, 0xDC00 + (n - 0x10000) % 0x400;
      PlainHex(high);
      PlainHex(low);
      PlainParts("\\u", Hex4(high));
      PlainParts("\\u" + Hex4(high), "\\u");
      PlainParts("\\u" + Hex4(high) + "\\u", Hex4(low));
    } else if !(0x20 <= n <= 0x7E) {
      PlainHex(n);
    }
  }

  lemma {:induction false} EscapedTextIsPlain(s: string)
    ensures Plain(EscapeAll(s))
  {
    if s != "" {
      EscapesArePlain(s[0]);
      EscapedTextIsPlain(s[1..]);
    }
  }

  lemma {:induction false} DecimalIsPlain(n: nat)
    ensures Plain(Decimal(n))
  {
  }

  /** Whatever the value, its text is printable ASCII. */
  lemma {:induction false} TextIsPlain(v: Json)
    ensures Plain(Print(v))
    decreases v
  {
    match v
    case Int(n) => DecimalIsPlain(if n < 0 then -n else n);
    case Str(s) => EscapedTextIsPlain(s);
    case Arr(items) => ItemsArePlain(items);
    case Obj(es) => EntriesArePlain(es);
    case _ =>
  }

  lemma {:induction false} ItemsArePlain(items: seq<Json>)
    ensures Plain(PrintItems(items))
    decreases items
  {
    if items != [] {
      TextIsPlain(items[0]);
      ItemsArePlain(items[1..]);
    }
  }

  lemma {:induction false} EntriesArePlain(es: seq<Entry>)
    ensures Plain(PrintEntries(es))
    decreases es
  {
    if es != [] {
      EscapedTextIsPlain(es[0].key);
      TextIsPlain(es[0].value);
      EntriesArePlain(es[1..]);
    }
  }

  /** A key and its value are separated by a colon alone. */
  ghost function PrintEntry(e: Entry): string {
    "\"" + EscapeAll(e.key) + "\":" + Print(e.value)
  }

  /** Entries and items are separated by a comma alone. */
  lemma TextIsCompact(a: Entry, b: Entry)
    ensures Print(Arr([a.value, b.value])) == "[" + (Print(a.value) + ("," + Print(b.value))) + "]"
    ensures Print(Obj([a, b])) == "{" + (PrintEntry(a) + ("," + PrintEntry(b))) + "}"
  {
    ItemsAreCompact(a.value, b.value);
    EntriesAreCompact(a, b);
  }

  lemma ItemsAreCompact(v: Json, w: Json)
    ensures PrintItems([v, w]) == Print(v) + ("," + Print(w))
  {
    assert [v, w][1..] == [w] && PrintItems([w]) == Print(w) + "";
  }

  lemma EntriesAreCompact(a: Entry, b: Entry)
    ensures PrintEntries([a, b]) == PrintEntry(a) + ("," + PrintEntry(b))
  {
    assert [a, b][1..] == [b] && PrintEntries([b]) == PrintEntry(b) + "";
  }
}
