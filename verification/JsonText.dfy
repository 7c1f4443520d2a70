/**
 The text of JSON values as json_get_array lists them, and the text lancedb_expr_json_array_has searches
 for (src/json.rs). Strings are escaped as in section 7 of RFC 8259.
 */
module JsonText {
  import opened Basics

  /** Elements of an array whose members are scalars. */
  datatype Json = JString(s: string) | JInteger(n: int) | JBoolean(b: bool) | JNull

  function Digit(n: nat): char
    requires n < 10
  {
    "0123456789"[n]
  }

  function NatText(n: nat): (text: string)
    ensures text != [] && text[0] in "0123456789"
  {
    if n < 10 then [Digit(n)] else NatText(n / 10) + [Digit(n % 10)]
  }

  /** The decimal text of an integer, without leading zeros. */
  function IntText(n: int): (text: string)
    ensures text != [] && text[0] in "-0123456789"
  {
    if n < 0 then "-" + NatText(-n) else NatText(n)
  }

  function BoolText(b: bool): string {
    if b then "true" else "false"
  }

  function Hex(n: nat): char
    requires n < 16
  {
    "0123456789abcdef"[n]
  }

  /** A quotation mark, a reverse solidus and the control characters must be escaped. */
  predicate NeedsEscape(c: char) {
    c == '"' || c == '\\' || c < ' '
  }

  function EscapeChar(c: char): (text: string)
    ensures !NeedsEscape(c) ==> text == [c]
    ensures NeedsEscape(c) ==> |text| >= 2 && text[0] == '\\'
  {
    if !NeedsEscape(c) then [c]
    else if c == '"' then "\\\""
    else if c == '\\' then "\\\\"
    else if c == '\n' then "\\n"
    else if c == '\r' then "\\r"
    else if c == '\t' then "\\t"
    else
      var code := c as int;
      "\\u00" + [Hex(code / 16)] + [Hex(code % 16)]
  }

  function Escape(s: string): string {
    if s == [] then [] else EscapeChar(s[0]) + Escape(s[1..])
  }

  function JsonText(j: Json): string {
    match j
    case JString(s) => "\"" + Escape(s) + "\""
    case JInteger(n) => IntText(n)
    case JBoolean(b) => BoolText(b)
    case JNull => "null"
  }

  predicate NoEscapes(s: string) {
    forall i :: 0 <= i < |s| ==> !NeedsEscape(s[i])
  }

  /** The search text of a value: in JSON quotes or as it is. */
  function SearchText(text: string, quote: bool): string {
    if quote then "\"" + text + "\"" else text
  }

  /* ---------- numbers ---------- */

  lemma DigitsDiffer(m: nat, n: nat)
    requires m < 10 && n < 10 && Digit(m) == Digit(n)
    ensures m == n
  {
  }

  lemma {:induction false} NatTextInjective(m: nat, n: nat)
    requires NatText(m) == NatText(n)
    ensures m == n
    decreases m
  {
    if m < 10 && n < 10 {
      DigitsDiffer(m, n);
    } else if m >= 10 && n >= 10 {
      var a, b := NatText(m / 10), NatText(n / 10);
      assert a == (a + [Digit(m % 10)])[..|a|] && b == (b + [Digit(n % 10)])[..|b|];
      assert (a + [Digit(m % 10)])[|a|] == (b + [Digit(n % 10)])[|b|];
      NatTextInjective(m / 10, n / 10);
      DigitsDiffer(m % 10, n % 10);
    }
  }

  lemma NoMinus(n: nat)
    ensures NatText(n)[0] != '-'
  {
  }

  lemma IntTextInjective(m: int, n: int)
    requires IntText(m) == IntText(n)
    ensures m == n
  {
    hide NatText;
    if m >= 0 && n >= 0 {
      NatTextInjective(m, n);
    } else if m < 0 && n < 0 {
      assert IntText(m)[1..] == NatText(-m) && IntText(n)[1..] == NatText(-n);
      NatTextInjective(-m, -n);
    } else {
      NoMinus(if m < 0 then n else m);
    }
  }

  predicate AllDigits(text: string) {
    |text| > 0 && forall i :: 0 <= i < |text| ==> '0' <= text[i] <= '9'
  }

  /** The number a string of digits denotes. */
  function Decimal(text: string): nat
    requires AllDigits(text)
  {
    var n, last := |text| - 1, text[|text| - 1] as int - '0' as int;
    if n == 0 then last else 10 * Decimal(text[..n]) + last
  }

  /** The integer a text denotes, if it is written without leading zeros and without a negative zero. */
  function ReadInt(text: string): Option<int> {
    if AllDigits(text) && (|text| == 1 || text[0] != '0') then Some(Decimal(text) as int)
    else if |text| > 1 && text[0] == '-' && AllDigits(text[1..]) && text[1] != '0' then
      var n: int := Decimal(text[1..]);
      Some(-n)
    else None
  }

  lemma DigitIsRead(n: nat, c: char)
    requires n < 10 && '0' <= c <= '9'
    ensures Digit(n) == c <==> n == c as int - '0' as int
    ensures '0' <= Digit(n) <= '9'
  {
    assert "0123456789"[c as int - '0' as int] == c;
  }

  lemma NextDigit(front: nat, last: nat)
    requires front > 0 && last < 10
    ensures NatText(10 * front + last) == NatText(front) + [Digit(last)]
  {
    assert (10 * front + last) / 10 == front;
  }

  lemma DecimalGrows(text: string, c: char)
    requires AllDigits(text) && '0' <= c <= '9'
    ensures AllDigits(text + [c]) && Decimal(text + [c]) == 10 * Decimal(text) + (c as int - '0' as int)
  {
    assert (text + [c])[..|text|] == text;
  }

  lemma {:induction false} NaturalsReadBack(n: nat)
    ensures var text := NatText(n);
            && AllDigits(text) && Decimal(text) == n && (n > 0 ==> text[0] != '0') && (|text| == 1 <==> n < 10)
  {
    DigitIsRead(n % 10, Digit(n % 10));
    if n >= 10 {
      hide Digit, Decimal, AllDigits;
      NaturalsReadBack(n / 10);
      DecimalGrows(NatText(n / 10), Digit(n % 10));
    }
  }

  lemma {:induction false} NaturalsHaveOneText(text: string)
    requires AllDigits(text) && (|text| == 1 || text[0] != '0')
    ensures NatText(Decimal(text)) == text
    ensures text[0] != '0' ==> Decimal(text) > 0
  {
    var front, c := text[..|text| - 1], text[|text| - 1];
    assert text == front + [c];
    var last := c as int - '0' as int;
    DigitIsRead(last, c);
    if front != [] {
      hide Digit, NatText, Decimal;
      NaturalsHaveOneText(front);
      DecimalGrows(front, c);
      NextDigit(Decimal(front), last);
    }
  }

  /** The text of an integer is the one text that reads as it. */
  lemma IntegersHaveOneText(n: int, text: string)
    ensures text == IntText(n) <==> ReadInt(text) == Some(n)
  {
    hide NatText, Decimal;
    if text == IntText(n) {
      NaturalsReadBack(if n < 0 then -n else n);
      if n < 0 {
        assert text[1..] == NatText(-n);
      }
    } else if ReadInt(text) == Some(n) {
      if AllDigits(text) {
        NaturalsHaveOneText(text);
      } else {
        NaturalsHaveOneText(text[1..]);
      }
    }
  }

  /* ---------- strings ---------- */

  lemma {:induction false} EscapeKeepsPlainText(s: string)
    requires NoEscapes(s)
    ensures Escape(s) == s
  {
    if s != [] {
      EscapeKeepsPlainText(s[1..]);
      assert s == [s[0]] + s[1..];
    }
  }

  lemma {:induction false} EscapingLengthens(s: string)
    ensures |s| <= |Escape(s)|
    ensures |s| == |Escape(s)| ==> NoEscapes(s)
  {
    if s != [] {
      EscapingLengthens(s[1..]);
      if |s| == |Escape(s)| {
        forall i | 0 <= i < |s| ensures !NeedsEscape(s[i]) {
          assert i > 0 ==> s[i] == s[1..][i - 1];
        }
      }
    }
  }

  /** Text that contains no escape was escaped from itself. */
  lemma {:induction false} PlainEscapesAreThemselves(s: string, t: string)
    requires NoEscapes(s) && Escape(t) == s
    ensures t == s
  {
    if t != [] {
      var head := EscapeChar(t[0]);
      assert s[0] == head[0];
      assert !NeedsEscape(s[0]);
      assert head == [t[0]];
      assert Escape(t[1..]) == s[1..];
      PlainEscapesAreThemselves(s[1..], t[1..]);
      assert t == [t[0]] + t[1..] && s == [s[0]] + s[1..];
    }
  }

  lemma QuotedTexts(s: string, t: string)
    requires SearchText(s, true) == SearchText(t, true)
    ensures s == t
  {
    assert SearchText(s, true)[1..|s| + 1] == s && SearchText(t, true)[1..|t| + 1] == t;
  }

  /* ---------- what is found ---------- */

  /** A quoted value that needs no escapes equals exactly the string element with that value. */
  lemma QuotedFindsTheString(s: string, j: Json)
    requires NoEscapes(s)
    ensures SearchText(s, true) == JsonText(j) <==> j == JString(s)
  {
    match j
    case JString(t) =>
      EscapeKeepsPlainText(s);
      if SearchText(s, true) == JsonText(j) {
        QuotedTexts(s, Escape(t));
        PlainEscapesAreThemselves(s, t);
      }
    case JInteger(n) => assert JsonText(j)[0] != '"';
    case JBoolean(b) => assert JsonText(j)[0] != '"';
    case JNull => assert JsonText(j)[0] != '"';
  }

  /** Quoting is right for a value, against every element, exactly when the value needs no escapes. */
  lemma QuotingIsSoundIffNothingNeedsEscapes(s: string)
    ensures (forall j :: SearchText(s, true) == JsonText(j) <==> j == JString(s)) <==> NoEscapes(s)
  {
    if NoEscapes(s) {
      forall j ensures SearchText(s, true) == JsonText(j) <==> j == JString(s) {
        QuotedFindsTheString(s, j);
      }
    } else {
      EscapingLengthens(s);
      assert |SearchText(s, true)| != |JsonText(JString(s))|;
      assert !(SearchText(s, true) == JsonText(JString(s)) <==> JString(s) == JString(s));
    }
  }

  /** A value with a newline: the quoted search misses the element with that value. */
  lemma QuotedNewlineIsMissed()
    ensures SearchText("a\nb", true) != JsonText(JString("a\nb"))
  {
    assert !NoEscapes("a\nb") by {
      assert "a\nb"[1] == '\n';
    }
    EscapingLengthens("a\nb");
  }

  /** The unquoted text of an integer equals exactly the element that is that number. */
  lemma UnquotedFindsTheInteger(n: int, j: Json)
    ensures SearchText(IntText(n), false) == JsonText(j) <==> j == JInteger(n)
  {
    match j
    case JString(s) => assert JsonText(j)[0] == '"';
    case JInteger(m) =>
      if IntText(n) == IntText(m) {
        IntTextInjective(n, m);
      }
    case JBoolean(b) => assert JsonText(j)[0] in "tf";
    case JNull => assert JsonText(j)[0] == 'n';
  }

  /** The unquoted text of a boolean equals exactly the element that is that boolean. */
  lemma UnquotedFindsTheBoolean(b: bool, j: Json)
    ensures SearchText(BoolText(b), false) == JsonText(j) <==> j == JBoolean(b)
  {
    match j
    case JString(s) => assert JsonText(j)[0] == '"';
    case JInteger(m) => assert JsonText(j)[0] in "-0123456789" && BoolText(b)[0] in "tf";
    case JBoolean(c) => assert BoolText(true)[0] == 't' && BoolText(false)[0] == 'f';
    case JNull => assert JsonText(j)[0] == 'n';
  }

  /** Text in quotes is never the text of a number or a boolean, whatever the value. */
  lemma QuotedNeverFindsScalars(text: string, j: Json)
    requires !j.JString?
    ensures SearchText(text, true) != JsonText(j)
  {
    assert SearchText(text, true)[0] == '"';
    match j
    case JInteger(n) => assert JsonText(j)[0] in "-0123456789";
    case JBoolean(b) => assert JsonText(j)[0] in "tf";
    case JNull => assert JsonText(j)[0] == 'n';
  }

  /** Without quotes, text that needs no escapes is never the text of a string element. */
  lemma UnquotedNeverFindsStrings(text: string, j: Json)
    requires j.JString? && NoEscapes(text)
    ensures SearchText(text, false) != JsonText(j)
  {
    assert JsonText(j)[0] == '"';
    if text != [] {
      assert !NeedsEscape(text[0]);
    }
  }

  /* ---------- texts as they stand in a document ---------- */

  function HexValue(c: char): (r: Option<nat>)
    ensures r.Some? ==> r.value < 16
  {
    if '0' <= c <= '9' then Some(c as int - '0' as int)
    else if 'a' <= c <= 'f' then Some(c as int - 'a' as int + 10)
    else if 'A' <= c <= 'F' then Some(c as int - 'A' as int + 10)
    else None
  }

  /** The code unit written as four hexadecimal digits. */
  function CodeUnit(text: string): (r: Option<nat>)
    requires |text| == 4
    ensures r.Some? ==> r.value < 0x10000
  {
    var a, b, c, d := HexValue(text[0]), HexValue(text[1]), HexValue(text[2]), HexValue(text[3]);
    if a.Some? && b.Some? && c.Some? && d.Some?
    then Some(0x1000 * a.value + 0x100 * b.value + 0x10 * c.value + d.value) else None
  }

  /** The character an escape sequence at the start of the text stands for, and the length of the sequence. */
  function Unescape(text: string): (r: Option<(char, nat)>)
    ensures r.Some? ==> 2 <= r.value.1 <= |text|
  {
    if |text| < 2 then None
    else
      match text[1]
      case '"' => Some(('"', 2))
      case '\\' => Some(('\\', 2))
      case '/' => Some(('/', 2))
      case 'b' => Some((8 as char, 2))
      case 'f' => Some((12 as char, 2))
      case 'n' => Some(('\n', 2))
      case 'r' => Some(('\r', 2))
      case 't' => Some(('\t', 2))
      case 'u' => UnescapeUnit(text)
      case _ => None
  }

  /** A code unit outside the surrogates, or a surrogate pair. */
  function UnescapeUnit(text: string): (r: Option<(char, nat)>)
    ensures r.Some? ==> 2 <= r.value.1 <= |text|
  {
    if |text| < 6 || CodeUnit(text[2..6]).None? then None
    else
      var u := CodeUnit(text[2..6]).value;
      if u < 0xD800 || 0xE000 <= u then Some((u as char, 6))
      else if u < 0xDC00 && |text| >= 12 && text[6..8] == "\\u" && CodeUnit(text[8..12]).Some? then
        var l := CodeUnit(text[8..12]).value;
        if 0xDC00 <= l < 0xE000 then Some(((0x10000 + (u - 0xD800) * 0x400 + (l - 0xDC00)) as char, 12)) else None
      else None
  }

  /** The characters between the quotation marks of a JSON string; None if that is not the inside of a string. */
  function Decode(body: string): Option<string>
    decreases |body|
  {
    if body == [] then Some([])
    else if body[0] == '\\' then
      var first := Unescape(body);
      if first.None? then None
      else
        var rest := Decode(body[first.value.1..]);
        if rest.None? then None else Some([first.value.0] + rest.value)
    else if NeedsEscape(body[0]) then None
    else
      var rest := Decode(body[1..]);
      if rest.None? then None else Some([body[0]] + rest.value)
  }

  /** The string a text denotes as a JSON value, however it is escaped. */
  function ReadString(text: string): Option<string> {
    if |text| >= 2 && text[0] == '"' && text[|text| - 1] == '"' then Decode(text[1..|text| - 1]) else None
  }

  lemma HexIsRead(n: nat)
    requires n < 16
    ensures HexValue(Hex(n)) == Some(n)
  {
  }

  lemma UnitIsRead(c: char)
    requires c < ' '
    ensures CodeUnit("00" + [Hex(c as int / 16)] + [Hex(c as int % 16)]) == Some(c as int)
  {
    assert Hex(0) == '0';
    hide HexValue, Hex;
    HexIsRead(0);
    HexIsRead(c as int / 16);
    HexIsRead(c as int % 16);
  }

  lemma EscapeIsUnescaped(c: char, rest: string)
    requires NeedsEscape(c)
    ensures Unescape(EscapeChar(c) + rest) == Some((c, |EscapeChar(c)|))
  {
    hide Hex, CodeUnit;
    var text := EscapeChar(c) + rest;
    if c !in "\"\\\n\r\t" {
      UnitIsRead(c);
      assert text[2..6] == "00" + [Hex(c as int / 16)] + [Hex(c as int % 16)];
    }
  }

  lemma EscapedCharIsRead(c: char, rest: string)
    requires Decode(rest).Some?
    ensures Decode(EscapeChar(c) + rest) == Some([c] + Decode(rest).value)
  {
    hide Unescape, EscapeChar;
    var text := EscapeChar(c) + rest;
    assert text[|EscapeChar(c)|..] == rest;
    if NeedsEscape(c) {
      EscapeIsUnescaped(c, rest);
    }
  }

  /** Canonical text is read back as the string it was made from. */
  lemma {:induction false} EscapeIsRead(s: string)
    ensures Decode(Escape(s)) == Some(s)
  {
    if s != [] {
      EscapeIsRead(s[1..]);
      EscapedCharIsRead(s[0], Escape(s[1..]));
      assert s == [s[0]] + s[1..];
    }
  }

  lemma CanonicalIsRead(s: string)
    ensures ReadString(JsonText(JString(s))) == Some(s)
  {
    EscapeIsRead(s);
    var text := JsonText(JString(s));
    assert text[1..|text| - 1] == Escape(s);
  }

  /** A text without escape sequences denotes itself; every escape sequence makes the string shorter than the text. */
  lemma {:induction false} DecodingShortens(body: string)
    requires Decode(body).Some?
    ensures |Decode(body).value| <= |body|
    ensures '\\' !in body ==> Decode(body).value == body && NoEscapes(body)
    ensures '\\' in body ==> |Decode(body).value| < |body|
    decreases |body|
  {
    if body != [] {
      var n := if body[0] == '\\' then Unescape(body).value.1 else 1;
      DecodingShortens(body[n..]);
      assert body == [body[0]] + body[1..];
      if body[0] != '\\' {
        forall i | 0 <= i < |body| && '\\' !in body ensures !NeedsEscape(body[i]) {
          assert i > 0 ==> body[i] == body[1..][i - 1];
        }
      }
    }
  }

  lemma {:induction false} PlainIsRead(s: string)
    requires NoEscapes(s)
    ensures Decode(s) == Some(s)
  {
    if s != [] {
      PlainIsRead(s[1..]);
      assert s == [s[0]] + s[1..];
    }
  }

  /**
   The quoted search among string elements written in any way at all: a value without a reverse solidus is
   found exactly in the elements that are this string and are written without escape sequences; a value
   with one is found, if anywhere, in elements that are another string.
   */
  lemma QuotedSearchReadsTheText(s: string, text: string, v: string)
    requires ReadString(text) == Some(v)
    ensures '\\' !in s ==> (SearchText(s, true) == text <==> v == s && '\\' !in text)
    ensures '\\' in s && SearchText(s, true) == text ==> v != s
  {
    var body := text[1..|text| - 1];
    assert text == "\"" + body + "\"";
    DecodingShortens(body);
    if SearchText(s, true) == text {
      assert SearchText(s, true)[1..|s| + 1] == s;
      assert body == s;
    }
  }

  /** A quoted value that needs no escapes is found exactly if some element is that string, written without escapes. */
  lemma QuotedSearchInAnyTexts(texts: seq<string>, s: string)
    requires NoEscapes(s)
    ensures SearchText(s, true) in texts <==>
              exists i :: 0 <= i < |texts| && ReadString(texts[i]) == Some(s) && '\\' !in texts[i]
  {
    var quoted := SearchText(s, true);
    assert quoted[1..|quoted| - 1] == s;
    PlainIsRead(s);
    forall i | 0 <= i < |texts|
      ensures texts[i] == quoted <==> ReadString(texts[i]) == Some(s) && '\\' !in texts[i]
    {
      if texts[i] == quoted {
        assert '\\' !in quoted;
      } else if ReadString(texts[i]) == Some(s) {
        PlainHasNoBackslash(s);
        QuotedSearchReadsTheText(s, texts[i], s);
      }
    }
  }

  lemma PlainHasNoBackslash(s: string)
    requires NoEscapes(s)
    ensures '\\' !in s
  {
  }

  /* ---------- whole arrays ---------- */

  function Texts(js: seq<Json>): (texts: seq<string>)
    ensures |texts| == |js| && forall i :: 0 <= i < |js| ==> texts[i] == JsonText(js[i])
  {
    seq(|js|, i requires 0 <= i < |js| => JsonText(js[i]))
  }

  lemma FoundInTexts(js: seq<Json>, text: string)
    ensures text in Texts(js) <==> exists i :: 0 <= i < |js| && JsonText(js[i]) == text
  {
  }

  predicate Homogeneous(js: seq<Json>, strings: bool) {
    forall i :: 0 <= i < |js| ==> (js[i].JString? <==> strings)
  }

  /** With the right flag array_has is membership; with the wrong one it finds nothing at all. */
  lemma StringSearch(js: seq<Json>, s: string)
    requires NoEscapes(s)
    ensures SearchText(s, true) in Texts(js) <==> JString(s) in js
    ensures Homogeneous(js, true) ==> SearchText(s, false) !in Texts(js)
    ensures Homogeneous(js, false) ==> SearchText(s, true) !in Texts(js)
  {
    FoundInTexts(js, SearchText(s, true));
    FoundInTexts(js, SearchText(s, false));
    forall i | 0 <= i < |js| ensures SearchText(s, true) == JsonText(js[i]) <==> js[i] == JString(s) {
      QuotedFindsTheString(s, js[i]);
    }
    forall i | 0 <= i < |js| && js[i].JString? ensures SearchText(s, false) != JsonText(js[i]) {
      UnquotedNeverFindsStrings(s, js[i]);
    }
  }

  lemma IntegerSearch(js: seq<Json>, n: int)
    ensures SearchText(IntText(n), false) in Texts(js) <==> JInteger(n) in js
    ensures Homogeneous(js, false) ==> SearchText(IntText(n), true) !in Texts(js)
  {
    FoundInTexts(js, SearchText(IntText(n), true));
    FoundInTexts(js, SearchText(IntText(n), false));
    forall i | 0 <= i < |js| ensures SearchText(IntText(n), false) == JsonText(js[i]) <==> js[i] == JInteger(n) {
      UnquotedFindsTheInteger(n, js[i]);
    }
    forall i | 0 <= i < |js| && !js[i].JString? ensures SearchText(IntText(n), true) != JsonText(js[i]) {
      QuotedNeverFindsScalars(IntText(n), js[i]);
    }
  }

  lemma BooleanSearch(js: seq<Json>, b: bool)
    ensures SearchText(BoolText(b), false) in Texts(js) <==> JBoolean(b) in js
    ensures Homogeneous(js, false) ==> SearchText(BoolText(b), true) !in Texts(js)
  {
    FoundInTexts(js, SearchText(BoolText(b), true));
    FoundInTexts(js, SearchText(BoolText(b), false));
    forall i | 0 <= i < |js| ensures SearchText(BoolText(b), false) == JsonText(js[i]) <==> js[i] == JBoolean(b) {
      UnquotedFindsTheBoolean(b, js[i]);
    }
    forall i | 0 <= i < |js| && !js[i].JString? ensures SearchText(BoolText(b), true) != JsonText(js[i]) {
      QuotedNeverFindsScalars(BoolText(b), js[i]);
    }
  }
}
