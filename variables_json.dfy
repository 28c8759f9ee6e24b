/** The `variables` column holds a template's variable names as JSON text:
    `JSON.stringify` of a list of strings on the way in, `JSON.parse` on the way
    out. This module writes that text exactly as `JSON.stringify` does and reads
    back JSON arrays of strings, with whitespace and every string escape. */
module VariablesJson {
  import opened JsString

  // ---------------------------------------------------------------------------
  // Writing

  function HexDigit(d: nat): char
    requires d < 16
  {
    "0123456789abcdef"[d]
  }

  /** The escape `JSON.stringify` writes for one character of a string. */
  function EscapeChar(c: char): string
  {
    if c == '"' then "\\\""
    else if c == '\\' then "\\\\"
    else if c == '\U{0008}' then "\\b"
    else if c == '\U{000C}' then "\\f"
    else if c == '\n' then "\\n"
    else if c == '\r' then "\\r"
    else if c == '\t' then "\\t"
    else if (c as int) < 0x20 then "\\u00" + [HexDigit(c as int / 16), HexDigit(c as int % 16)]
    else [c]
  }

  function Escape(s: string): string
  {
    if s == [] then [] else EscapeChar(s[0]) + Escape(s[1..])
  }

  function Quote(s: string): string
  {
    "\"" + Escape(s) + "\""
  }

  function JoinQuoted(xs: seq<string>): string
  {
    if xs == [] then ""
    else if |xs| == 1 then Quote(xs[0])
    else Quote(xs[0]) + "," + JoinQuoted(xs[1..])
  }

  /** `JSON.stringify(xs)` for a list of strings: compact, no spaces. */
  function Stringify(xs: seq<string>): (r: string)
    ensures |r| >= 2 && r[0] == '[' && r[|r| - 1] == ']'
  {
    "[" + JoinQuoted(xs) + "]"
  }

  // ---------------------------------------------------------------------------
  // Reading

  predicate IsJsonSpace(c: char)
  {
    c == ' ' || c == '\t' || c == '\n' || c == '\r'
  }

  function SkipSpace(s: string): (r: string)
    ensures |r| <= |s|
    ensures r != [] ==> !IsJsonSpace(r[0])
  {
    if s != [] && IsJsonSpace(s[0]) then SkipSpace(s[1..]) else s
  }

  function HexValue(c: char): (r: Option<nat>)
    ensures r.Some? ==> r.value < 16
  {
    if '0' <= c <= '9' then Some(c as int - '0' as int)
    else if 'a' <= c <= 'f' then Some(c as int - 'a' as int + 10)
    else if 'A' <= c <= 'F' then Some(c as int - 'A' as int + 10)
    else None
  }

  /** The code unit of a `\uXXXX` escape. */
  function Hex4(a: char, b: char, c: char, d: char): (r: Option<nat>)
    ensures r.Some? ==> r.value < 0x10000
  {
    var ha, hb, hc, hd := HexValue(a), HexValue(b), HexValue(c), HexValue(d);
    if ha.Some? && hb.Some? && hc.Some? && hd.Some? then
      Some(((ha.value * 16 + hb.value) * 16 + hc.value) * 16 + hd.value)
    else None
  }

  /** The character a simple escape `\x` stands for. */
  function SimpleEscape(c: char): Option<char>
  {
    if c == '"' then Some('"')
    else if c == '\\' then Some('\\')
    else if c == '/' then Some('/')
    else if c == 'b' then Some('\U{0008}')
    else if c == 'f' then Some('\U{000C}')
    else if c == 'n' then Some('\n')
    else if c == 'r' then Some('\r')
    else if c == 't' then Some('\t')
    else None
  }

  /** The body of a string literal after its opening quote: the decoded value and
      the text after the closing quote. */
  function ParseString(s: string): (r: Option<(string, string)>)
    ensures r.Some? ==> |r.value.1| < |s|
    decreases |s|
  {
    if s == [] then None
    else if s[0] == '"' then Some(([], s[1..]))
    else if s[0] == '\\' then
      if |s| < 2 then None
      else if s[1] == 'u' then
        if |s| < 6 then None
        else
          var code := Hex4(s[2], s[3], s[4], s[5]);
          if code.None? || (0xD800 <= code.value < 0xE000) then None
          else
            match ParseString(s[6..])
            case None => None
            case Some((v, rest)) => Some(([code.value as char] + v, rest))
      else
        var e := SimpleEscape(s[1]);
        if e.None? then None
        else
          match ParseString(s[2..])
          case None => None
          case Some((v, rest)) => Some(([e.value] + v, rest))
    else if (s[0] as int) < 0x20 then None
    else
      match ParseString(s[1..])
      case None => None
      case Some((v, rest)) => Some(([s[0]] + v, rest))
  }

  /** The elements of a non-empty array, from the first string's opening quote up to
      and including the closing bracket. */
  function ParseElements(s: string): (r: Option<(seq<string>, string)>)
    ensures r.Some? ==> |r.value.1| < |s|
    decreases |s|
  {
    if s == [] || s[0] != '"' then None
    else
      match ParseString(s[1..])
      case None => None
      case Some((v, rest)) =>
        var t := SkipSpace(rest);
        if t != [] && t[0] == ']' then Some(([v], t[1..]))
        else if t != [] && t[0] == ',' then
          match ParseElements(SkipSpace(t[1..]))
          case None => None
          case Some((vs, rest2)) => Some(([v] + vs, rest2))
        else None
  }

  /** `JSON.parse(text)` when the text is an array of strings; `None` for any other
      text, where the original throws or yields something other than a list. */
  function Parse(text: string): (r: Option<seq<string>>)
    ensures r.Some? ==> SkipSpace(text) != [] && SkipSpace(text)[0] == '['
  {
    var s := SkipSpace(text);
    if s == [] || s[0] != '[' then None
    else
      var t := SkipSpace(s[1..]);
      if t != [] && t[0] == ']' then
        if SkipSpace(t[1..]) == [] then Some([]) else None
      else
        match ParseElements(t)
        case None => None
        case Some((xs, rest)) => if SkipSpace(rest) == [] then Some(xs) else None
  }

  // ---------------------------------------------------------------------------
  // The round trip

  lemma HexRoundTrip(n: nat)
    requires n < 16
    ensures HexValue(HexDigit(n)) == Some(n)
  {
  }

  /** Decoding one escape gives back the character and leaves the rest. */
  lemma ParseEscapeChar(c: char, tail: string)
    ensures ParseString(EscapeChar(c) + tail) ==
      match ParseString(tail)
      case None => None
      case Some((v, rest)) => Some(([c] + v, rest))
  {
    if c == '"' || c == '\\' || c == '\U{0008}' || c == '\U{000C}' || c == '\n' || c == '\r' || c == '\t' {
      ParseShortEscape(c, tail);
    } else if (c as int) < 0x20 {
      ParseUnicodeEscape(c, tail);
    } else {
      var s := EscapeChar(c) + tail;
      assert s[0] == c && s[1..] == tail;
    }
  }

  lemma ParseShortEscape(c: char, tail: string)
    requires c == '"' || c == '\\' || c == '\U{0008}' || c == '\U{000C}' || c == '\n' || c == '\r' || c == '\t'
    ensures ParseString(EscapeChar(c) + tail) ==
      match ParseString(tail)
      case None => None
      case Some((v, rest)) => Some(([c] + v, rest))
  {
    var e := EscapeChar(c);
    var s := e + tail;
    assert |e| == 2 && s[0] == '\\' && s[1] == e[1] && s[2..] == tail;
  }

  lemma ParseUnicodeEscape(c: char, tail: string)
    requires (c as int) < 0x20
    requires !(c == '"' || c == '\\' || c == '\U{0008}' || c == '\U{000C}' || c == '\n' || c == '\r' || c == '\t')
    ensures ParseString(EscapeChar(c) + tail) ==
      match ParseString(tail)
      case None => None
      case Some((v, rest)) => Some(([c] + v, rest))
  {
    var e := EscapeChar(c);
    var s := e + tail;
    var hi, lo := c as int / 16, c as int % 16;
    assert |e| == 6 && s[0] == '\\' && s[1] == 'u';
    assert s[2] == '0' && s[3] == '0' && s[4] == HexDigit(hi) && s[5] == HexDigit(lo);
    HexRoundTrip(hi);
    HexRoundTrip(lo);
    assert Hex4(s[2], s[3], s[4], s[5]) == Some(c as int);
    assert s[6..] == tail;
  }

  lemma {:induction false} ParseStringEscape(x: string, rest: string)
    ensures ParseString(Escape(x) + "\"" + rest) == Some((x, rest))
  {
    if x == [] {
      assert Escape(x) + "\"" + rest == "\"" + rest;
      assert ("\"" + rest)[1..] == rest;
    } else {
      var c, tail := x[0], Escape(x[1..]) + "\"" + rest;
      ParseStringEscape(x[1..], rest);
      EscapeCons(x, rest);
      ParseEscapeChar(c, tail);
      ConsSplit(x);
    }
  }

  lemma EscapeCons(x: string, rest: string)
    requires x != []
    ensures Escape(x) + "\"" + rest == EscapeChar(x[0]) + (Escape(x[1..]) + "\"" + rest)
  {
    var e, t := EscapeChar(x[0]), Escape(x[1..]);
    assert Escape(x) == e + t;
    Regroup4(e, t, "\"", rest);
  }

  lemma Regroup4<T>(a: seq<T>, b: seq<T>, c: seq<T>, d: seq<T>)
    ensures a + b + c + d == a + (b + c + d)
  {
  }

  lemma QuoteStart(v: string, tail: string)
    ensures (Quote(v) + tail)[0] == '"'
    ensures (Quote(v) + tail)[1..] == Escape(v) + "\"" + tail
  {
  }

  lemma ParseElementsLast(v: string, rest: string)
    ensures ParseElements(Quote(v) + "]" + rest) == Some(([v], rest))
  {
    var s := Quote(v) + ("]" + rest);
    assert Quote(v) + "]" + rest == s;
    QuoteStart(v, "]" + rest);
    ParseStringEscape(v, "]" + rest);
    assert SkipSpace("]" + rest) == "]" + rest;
    assert ("]" + rest)[1..] == rest;
  }

  /** One element read, followed by a comma and the remaining elements. */
  lemma ParseElementsAfterComma(s: string, v: string, tail: string)
    requires s != [] && s[0] == '"' && ParseString(s[1..]) == Some((v, "," + tail))
    requires tail != [] && tail[0] == '"'
    ensures ParseElements(s) ==
      match ParseElements(tail)
      case None => None
      case Some((vs, rest2)) => Some(([v] + vs, rest2))
  {
    assert SkipSpace("," + tail) == "," + tail;
    assert ("," + tail)[1..] == tail;
    assert SkipSpace(tail) == tail;
  }

  lemma ParseElementsCons(s: string, v: string, tail: string, vs: seq<string>, rest: string)
    requires s == Quote(v) + ("," + tail)
    requires tail != [] && tail[0] == '"'
    requires ParseElements(tail) == Some((vs, rest))
    ensures ParseElements(s) == Some(([v] + vs, rest))
  {
    ParseQuotedHead(v, "," + tail);
    ParseElementsAfterComma(s, v, tail);
  }

  /** A quoted value followed by anything reads as that value. */
  lemma ParseQuotedHead(v: string, after: string)
    ensures (Quote(v) + after)[0] == '"'
    ensures ParseString((Quote(v) + after)[1..]) == Some((v, after))
  {
    QuoteStart(v, after);
    ParseStringEscape(v, after);
  }

  lemma JoinQuotedStart(xs: seq<string>, tail: string)
    requires xs != []
    ensures (JoinQuoted(xs) + tail)[0] == '"'
  {
    if |xs| == 1 {
      QuoteStart(xs[0], tail);
    } else {
      assert JoinQuoted(xs) + tail == Quote(xs[0]) + ("," + JoinQuoted(xs[1..]) + tail);
      QuoteStart(xs[0], "," + JoinQuoted(xs[1..]) + tail);
    }
  }

  lemma JoinQuotedCons(xs: seq<string>, rest: string)
    requires |xs| > 1
    ensures JoinQuoted(xs) + "]" + rest == Quote(xs[0]) + ("," + (JoinQuoted(xs[1..]) + "]" + rest))
  {
    var a, b := Quote(xs[0]), JoinQuoted(xs[1..]);
    assert JoinQuoted(xs) == a + "," + b;
    Regroup(a, ",", b, "]", rest);
  }

  lemma Regroup<T>(a: seq<T>, c: seq<T>, b: seq<T>, z: seq<T>, w: seq<T>)
    ensures a + c + b + z + w == a + (c + (b + z + w))
  {
  }

  lemma ConsSplit<T>(xs: seq<T>)
    requires xs != []
    ensures [xs[0]] + xs[1..] == xs
  {
  }

  lemma {:induction false} ParseElementsJoin(xs: seq<string>, rest: string)
    requires xs != []
    ensures ParseElements(JoinQuoted(xs) + "]" + rest) == Some((xs, rest))
    decreases |xs|
  {
    if |xs| == 1 {
      assert JoinQuoted(xs) == Quote(xs[0]) && xs == [xs[0]];
      ParseElementsLast(xs[0], rest);
    } else {
      ParseElementsJoin(xs[1..], rest);
      ParseElementsJoinStep(xs, rest);
    }
  }

  lemma ParseElementsJoinStep(xs: seq<string>, rest: string)
    requires |xs| > 1
    requires ParseElements(JoinQuoted(xs[1..]) + "]" + rest) == Some((xs[1..], rest))
    ensures ParseElements(JoinQuoted(xs) + "]" + rest) == Some((xs, rest))
  {
    JoinQuotedStart(xs[1..], "]" + rest);
    JoinQuotedCons(xs, rest);
    ParseElementsCons(JoinQuoted(xs) + "]" + rest, xs[0], JoinQuoted(xs[1..]) + "]" + rest, xs[1..], rest);
    ConsSplit(xs);
  }

  /** What `JSON.stringify` writes, `JSON.parse` reads back as the same list. */
  lemma StringifyParseAll()
    ensures forall xs :: Parse(Stringify(xs)) == Some(xs)
  {
    forall xs ensures Parse(Stringify(xs)) == Some(xs) {
      StringifyParse(xs);
    }
  }

  lemma StringifyParse(xs: seq<string>)
    ensures Parse(Stringify(xs)) == Some(xs)
  {
    if xs == [] {
      StringifyParseEmpty();
    } else {
      StringifyParseNonEmpty(xs);
    }
  }

  lemma StringifyParseEmpty()
    ensures Parse(Stringify([])) == Some([])
  {
    var s := Stringify([]);
    assert s == "[]";
    assert SkipSpace(s) == s;
    assert s[1..] == "]";
    assert SkipSpace("]") == "]";
    assert SkipSpace("") == "";
  }

  lemma StringifyParseNonEmpty(xs: seq<string>)
    requires xs != []
    ensures Parse(Stringify(xs)) == Some(xs)
  {
    var body := JoinQuoted(xs) + "]";
    assert Stringify(xs) == "[" + body;
    JoinQuotedStart(xs, "]");
    ParseElementsJoin(xs, "");
    assert JoinQuoted(xs) + "]" + "" == body;
    ParseArray(body, xs);
  }

  /** An opening bracket followed by elements that end the text. */
  lemma ParseArray(body: string, xs: seq<string>)
    requires body != [] && body[0] == '"'
    requires ParseElements(body) == Some((xs, ""))
    ensures Parse("[" + body) == Some(xs)
  {
    var s := "[" + body;
    assert SkipSpace(s) == s;
    assert s[1..] == body;
    assert SkipSpace(body) == body;
    assert SkipSpace("") == "";
  }
}
