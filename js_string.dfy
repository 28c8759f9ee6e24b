/** The few JavaScript string and value primitives the modelled code relies on:
    optional values, truthiness of strings, ASCII lower-casing, `trim`, `split`,
    `includes`, `endsWith`, `length` in UTF-16 code units, number formatting and
    `parseInt`. Elsewhere a Dafny `char` stands for one UTF-16 code unit of the
    original, since only ASCII is inspected there. */
module JsString {

  datatype Option<+T> = None | Some(value: T)

  /** `x ? ... : ...` on an optional string: absent and "" are falsy. */
  predicate Truthy(o: Option<string>)
  {
    o.Some? && o.value != ""
  }

  /** `o || d` on an optional string. */
  function OrElse(o: Option<string>, d: string): (r: string)
    ensures Truthy(o) ==> r == o.value
    ensures !Truthy(o) ==> r == d
  {
    if Truthy(o) then o.value else d
  }

  /** `o || null`: the store keeps an empty string as NULL. */
  function NullIfEmpty(o: Option<string>): (r: Option<string>)
    ensures r.None? <==> !Truthy(o)
    ensures r.Some? ==> r == o
  {
    if Truthy(o) then o else None
  }

  function Lookup(m: map<string, string>, k: string): Option<string>
  {
    if k in m then Some(m[k]) else None
  }

  function LowerChar(c: char): char
  {
    if 'A' <= c <= 'Z' then (c as int + 32) as char else c
  }

  /** `toLowerCase`, restricted to the ASCII letters. */
  function ToLower(s: string): (r: string)
    ensures |r| == |s|
    ensures forall i :: 0 <= i < |s| ==> r[i] == LowerChar(s[i])
  {
    seq(|s|, i requires 0 <= i < |s| => LowerChar(s[i]))
  }

  /** The UTF-16 code units one character takes: two outside the BMP. */
  function CodeUnits(c: char): nat
  {
    if c as int >= 0x10000 then 2 else 1
  }

  /** `s.length`, which counts UTF-16 code units rather than characters. */
  function Length(s: string): nat
  {
    if s == [] then 0 else CodeUnits(s[0]) + Length(s[1..])
  }

  /** Each character is one or two code units, and a text inside the BMP is as long in
      code units as in characters. */
  lemma {:induction false} LengthBounds(s: string)
    ensures |s| <= Length(s) <= 2 * |s|
    ensures (forall i :: 0 <= i < |s| ==> s[i] as int < 0x10000) ==> Length(s) == |s|
  {
    if s != [] {
      LengthBounds(s[1..]);
      assert forall i :: 0 <= i < |s| - 1 ==> s[1..][i] == s[i + 1];
    }
  }

  /** The characters `String.prototype.trim` removes: WhiteSpace and LineTerminator. */
  predicate IsJsSpace(c: char)
  {
    var n := c as int;
    (9 <= n <= 13) || n == 32 || n == 0xA0 || n == 0x1680 || (0x2000 <= n <= 0x200A)
    || n == 0x2028 || n == 0x2029 || n == 0x202F || n == 0x205F || n == 0x3000 || n == 0xFEFF
  }

  function TrimStart(s: string): (r: string)
    ensures |r| <= |s| && r == s[|s| - |r|..]
    ensures r != [] ==> !IsJsSpace(r[0])
    ensures forall i :: 0 <= i < |s| - |r| ==> IsJsSpace(s[i])
  {
    if s != [] && IsJsSpace(s[0]) then TrimStart(s[1..]) else s
  }

  function TrimEnd(s: string): (r: string)
    ensures |r| <= |s| && r == s[..|r|]
    ensures r != [] ==> !IsJsSpace(r[|r| - 1])
    ensures forall i :: |r| <= i < |s| ==> IsJsSpace(s[i])
  {
    if s != [] && IsJsSpace(s[|s| - 1]) then TrimEnd(s[..|s| - 1]) else s
  }

  function Trim(s: string): string
  {
    TrimEnd(TrimStart(s))
  }

  /** `s.split(sep)` for a one-character separator. */
  function Split(s: string, sep: char): (parts: seq<string>)
    ensures |parts| >= 1
    ensures forall k :: 0 <= k < |parts| ==> sep !in parts[k]
    decreases |s|
  {
    if s == [] then [""]
    else
      var rest := Split(s[1..], sep);
      if s[0] == sep then [""] + rest
      else [[s[0]] + rest[0]] + rest[1..]
  }

  function Join(parts: seq<string>, sep: char): string
  {
    if |parts| <= 1 then (if parts == [] then "" else parts[0])
    else parts[0] + [sep] + Join(parts[1..], sep)
  }

  /** Splitting loses nothing: the parts joined back with the separator give the input. */
  lemma {:induction false} SplitJoin(s: string, sep: char)
    ensures Join(Split(s, sep), sep) == s
    decreases |s|
  {
    if s != [] {
      var rest := Split(s[1..], sep);
      SplitJoin(s[1..], sep);
      if s[0] == sep {
        assert Split(s, sep) == [""] + rest;
        assert s == [s[0]] + s[1..];
      } else {
        var parts := Split(s, sep);
        assert parts == [[s[0]] + rest[0]] + rest[1..];
        if |rest| == 1 {
          assert Join(parts, sep) == [s[0]] + rest[0];
        } else {
          assert parts[1..] == rest[1..];
          assert Join(rest, sep) == rest[0] + [sep] + Join(rest[1..], sep);
        }
        assert s == [s[0]] + s[1..];
      }
    }
  }

  /** Splitting at the first separator: the text before it is the first part. */
  lemma {:induction false} SplitFirst(a: string, sep: char, b: string)
    requires sep !in a
    ensures Split(a + [sep] + b, sep) == [a] + Split(b, sep)
    decreases |a|
  {
    if a == [] {
      assert a + [sep] + b == [sep] + b;
      assert ([sep] + b)[1..] == b;
    } else {
      SplitFirst(a[1..], sep, b);
      assert (a + [sep] + b)[1..] == a[1..] + [sep] + b;
      assert [a[0]] + a[1..] == a;
    }
  }

  /** The text after a separator that is followed by no other is the last part. */
  lemma {:induction false} SplitLastPart(a: string, sep: char, b: string)
    requires sep !in b
    ensures var parts := Split(a + [sep] + b, sep);
      |parts| > 1 && parts[|parts| - 1] == b
    decreases |a|
  {
    var s := a + [sep] + b;
    if a == [] {
      SplitFirst(a, sep, b);
      SplitNone(b, sep);
    } else {
      SplitLastPart(a[1..], sep, b);
      assert s[1..] == a[1..] + [sep] + b;
    }
  }

  /** A text without the separator is a single part. */
  lemma {:induction false} SplitNone(s: string, sep: char)
    requires sep !in s
    ensures Split(s, sep) == [s]
    decreases |s|
  {
    if s != [] {
      SplitNone(s[1..], sep);
      assert [s[0]] + s[1..] == s;
    }
  }

  /** The input contains the separator exactly when it splits into more than one part. */
  lemma {:induction false} SplitCount(s: string, sep: char)
    ensures |Split(s, sep)| > 1 <==> sep in s
    decreases |s|
  {
    if s != [] {
      SplitCount(s[1..], sep);
      assert s == [s[0]] + s[1..];
    }
  }

  /** The last part of a split is the text after the last separator. */
  lemma {:induction false} SplitLast(s: string, sep: char)
    requires sep in s
    ensures var parts := Split(s, sep);
      exists k :: 0 <= k < |s| && s[k] == sep && parts[|parts| - 1] == s[k + 1..]
    decreases |s|
  {
    if sep in s[1..] {
      SplitLast(s[1..], sep);
      var rest := Split(s[1..], sep);
      var k :| 0 <= k < |s[1..]| && s[1..][k] == sep && rest[|rest| - 1] == s[1..][k + 1..];
      SplitCount(s[1..], sep);
      SplitLastOfTail(s, sep);
      assert s[k + 1] == sep && s[k + 2..] == s[1..][k + 1..];
    } else {
      SplitLastHere(s, sep);
    }
  }

  /** With a separator still to come, the last part is the last part of the tail. */
  lemma SplitLastOfTail(s: string, sep: char)
    requires s != [] && |Split(s[1..], sep)| >= 2
    ensures Split(s, sep)[|Split(s, sep)| - 1] == Split(s[1..], sep)[|Split(s[1..], sep)| - 1]
  {
  }

  /** A separator at the front that is the only one leaves the tail as the last part. */
  lemma SplitLastHere(s: string, sep: char)
    requires sep in s && sep !in s[1..]
    ensures s[0] == sep && Split(s, sep)[|Split(s, sep)| - 1] == s[1..]
  {
    assert s == [s[0]] + s[1..];
    var rest := Split(s[1..], sep);
    SplitCount(s[1..], sep);
    assert |rest| == 1;
    SplitJoin(s[1..], sep);
  }

  /** `s.includes(sub)`. */
  predicate Contains(s: string, sub: string)
  {
    exists i :: 0 <= i <= |s| - |sub| && OccursAt(s, sub, i)
  }

  predicate OccursAt(s: string, sub: string, i: int)
  {
    0 <= i <= |s| - |sub| && s[i..i + |sub|] == sub
  }

  /** `s.endsWith(suffix)`. */
  predicate EndsWith(s: string, suffix: string)
  {
    |suffix| <= |s| && s[|s| - |suffix|..] == suffix
  }

  function DigitChar(d: nat): char
    requires d < 10
  {
    "0123456789"[d]
  }

  function NatToString(n: nat): (r: string)
    ensures r != []
    ensures forall i :: 0 <= i < |r| ==> '0' <= r[i] <= '9'
  {
    if n < 10 then [DigitChar(n)] else NatToString(n / 10) + [DigitChar(n % 10)]
  }

  /** The decimal text of an integer, as a template literal prints it. */
  function IntToString(n: int): string
  {
    if n < 0 then "-" + NatToString(-n) else NatToString(n)
  }

  function DigitValue(c: char, radix: nat): Option<nat>
  {
    var v :=
      if '0' <= c <= '9' then c as int - '0' as int
      else if 'a' <= c <= 'z' then c as int - 'a' as int + 10
      else if 'A' <= c <= 'Z' then c as int - 'A' as int + 10
      else 36;
    if v < radix then Some(v) else None
  }

  /** Length of the longest prefix of `s` made of digits of `radix`. */
  function DigitRun(s: string, radix: nat): (n: nat)
    ensures n <= |s|
    ensures forall i :: 0 <= i < n ==> DigitValue(s[i], radix).Some?
    ensures n < |s| ==> DigitValue(s[n], radix).None?
  {
    if s != [] && DigitValue(s[0], radix).Some? then 1 + DigitRun(s[1..], radix) else 0
  }

  /** Value of a digit string, most significant digit first; `ParseInt` applies it to
      digit runs only, so a character that is not a digit never occurs (it would count
      as zero). */
  function DigitsValue(s: string, radix: nat): nat
  {
    if s == [] then 0
    else var d := DigitValue(s[|s| - 1], radix);
      DigitsValue(s[..|s| - 1], radix) * radix + (if d.Some? then d.value else 0)
  }

  /** `parseInt(s)` with no radix argument; `None` stands for NaN. */
  function ParseInt(s: string): Option<int>
  {
    var t := TrimStart(s);
    var sign := if t != [] && t[0] == '-' then -1 else 1;
    var u := if t != [] && (t[0] == '-' || t[0] == '+') then t[1..] else t;
    var hex := |u| >= 2 && u[0] == '0' && (u[1] == 'x' || u[1] == 'X');
    var radix := if hex then 16 else 10;
    var digits := if hex then u[2..] else u;
    var n := DigitRun(digits, radix);
    if n == 0 then None else Some(sign * DigitsValue(digits[..n], radix))
  }
}
