/** Mustache-style `{{name}}` variables in template text (backend/src/utils/template.ts).

    The regular expression /\{\{(\w+)\}\}/g is modelled by `Scan`, which reads the text
    from the left exactly as a global regular-expression search does: at each position
    it tries to match a token; on a match it emits the variable and resumes after the
    match, otherwise it emits the character and moves one position on. `\w` is the
    ASCII class [A-Za-z0-9_]. */
module TemplateText {
  import opened JsString

  predicate IsWordChar(c: char)
  {
    'a' <= c <= 'z' || 'A' <= c <= 'Z' || '0' <= c <= '9' || c == '_'
  }

  predicate IsWord(w: string)
  {
    w != [] && forall i :: 0 <= i < |w| ==> IsWordChar(w[i])
  }

  function TokenText(name: string): string
  {
    "{{" + name + "}}"
  }

  /** Length of the run of word characters that starts `s` (what a greedy `\w+` takes). */
  function WordRun(s: string): (n: nat)
    ensures n <= |s|
    ensures forall i :: 0 <= i < n ==> IsWordChar(s[i])
    ensures n < |s| ==> !IsWordChar(s[n])
  {
    if s != [] && IsWordChar(s[0]) then 1 + WordRun(s[1..]) else 0
  }

  datatype Token = Token(name: string, len: nat)

  /** The match of /\{\{(\w+)\}\}/ anchored at the start of `s`, if there is one.
      Backtracking `\w+` to a shorter run never helps: the next character would be a
      word character, not `}`. So only the maximal run has to be tried. */
  function TokenAt(s: string): (t: Option<Token>)
    ensures t.Some? ==> (IsWord(t.value.name) && t.value.len == |t.value.name| + 4
      && t.value.len <= |s| && s[..t.value.len] == TokenText(t.value.name))
  {
    if |s| >= 2 && s[0] == '{' && s[1] == '{' then
      var n := WordRun(s[2..]);
      if n >= 1 && n + 4 <= |s| && s[n + 2] == '}' && s[n + 3] == '}' then
        TokenPrefix(s, n);
        Some(Token(s[2..n + 2], n + 4))
      else None
    else None
  }

  lemma TokenPrefix(s: string, n: nat)
    requires n + 4 <= |s| && s[0] == '{' && s[1] == '{' && s[n + 2] == '}' && s[n + 3] == '}'
    ensures s[..n + 4] == TokenText(s[2..n + 2])
  {
    assert s[..2] == "{{" && s[n + 2..n + 4] == "}}";
    assert s[..n + 4] == s[..2] + s[2..n + 2] + s[n + 2..n + 4];
  }

  lemma {:induction false} WordRunStops(w: string, rest: string)
    requires forall i :: 0 <= i < |w| ==> IsWordChar(w[i])
    requires rest != [] && !IsWordChar(rest[0])
    ensures WordRun(w + rest) == |w|
    decreases |w|
  {
    if w != [] {
      WordRunStops(w[1..], rest);
      assert (w + rest)[1..] == w[1..] + rest;
    }
  }

  /** Every token text is matched where it starts: `TokenAt` and the token syntax agree. */
  lemma TokenAtExact(name: string, rest: string)
    requires IsWord(name)
    ensures TokenAt(TokenText(name) + rest) == Some(Token(name, |name| + 4))
  {
    var s := TokenText(name) + rest;
    assert s[2..] == name + ("}}" + rest);
    WordRunStops(name, "}}" + rest);
    assert s[2..|name| + 2] == name;
  }

  /** A token that matches still matches, unchanged, when more text follows. */
  lemma TokenAtExtend(s: string, r: string)
    requires TokenAt(s).Some?
    ensures TokenAt(s + r) == TokenAt(s)
  {
    var t := TokenAt(s).value;
    assert s == TokenText(t.name) + s[t.len..];
    TokenAtExact(t.name, s[t.len..] + r);
    assert s + r == TokenText(t.name) + (s[t.len..] + r);
    TokenAtExact(t.name, s[t.len..]);
  }

  /** A character that is neither a brace nor a word character cannot be part of a
      token. */
  predicate IsSeparator(c: char)
  {
    c != '{' && c != '}' && !IsWordChar(c)
  }

  lemma TokenTextHasNoSeparator(name: string, k: int)
    requires IsWord(name) && 0 <= k < |name| + 4
    ensures !IsSeparator(TokenText(name)[k])
  {
    if 2 <= k < |name| + 2 {
      assert TokenText(name)[k] == name[k - 2];
    }
  }

  /** No token reaches across a separator: matching before it sees only the text
      before it. */
  lemma TokenAtBeforeSeparator(s: string, c: char, r: string)
    requires IsSeparator(c)
    ensures TokenAt(s + [c] + r) == TokenAt(s)
  {
    var x := s + [c] + r;
    if TokenAt(x).Some? {
      var t := TokenAt(x).value;
      if t.len > |s| {
        assert x[..t.len][|s|] == c;
        TokenTextHasNoSeparator(t.name, |s|);
        assert false;
      }
      assert s[..t.len] == x[..t.len];
      assert s == TokenText(t.name) + s[t.len..];
      TokenAtExact(t.name, s[t.len..]);
    } else if TokenAt(s).Some? {
      assert s + ([c] + r) == x;
      TokenAtExtend(s, [c] + r);
      assert false;
    }
  }

  /** A piece of scanned text: a literal character or a `{{name}}` token. */
  datatype Piece = Lit(c: char) | Var(name: string)

  /** The text cut into pieces as the global search /\{\{(\w+)\}\}/g walks it. */
  function Scan(s: string): (r: seq<Piece>)
    decreases |s|
  {
    if s == [] then []
    else match TokenAt(s)
      case Some(t) => [Var(t.name)] + Scan(s[t.len..])
      case None => [Lit(s[0])] + Scan(s[1..])
  }

  function PieceText(p: Piece): string
  {
    match p
    case Lit(c) => [c]
    case Var(name) => TokenText(name)
  }

  function Unscan(ps: seq<Piece>): string
  {
    if ps == [] then "" else PieceText(ps[0]) + Unscan(ps[1..])
  }

  function VarNames(ps: seq<Piece>): seq<string>
  {
    if ps == [] then []
    else (if ps[0].Var? then [ps[0].name] else []) + VarNames(ps[1..])
  }

  /** The captured names of every match, in order (what `matchAll` yields). */
  function Names(text: string): seq<string>
  {
    VarNames(Scan(text))
  }

  /** `{{name}}` replaced by its value when the name is a key, kept verbatim otherwise. */
  function Render(ps: seq<Piece>, vars: map<string, string>): string
  {
    if ps == [] then "" else RenderPiece(ps[0], vars) + Render(ps[1..], vars)
  }

  function RenderPiece(p: Piece, vars: map<string, string>): string
  {
    match p
    case Lit(c) => [c]
    case Var(name) => if name in vars then vars[name] else TokenText(name)
  }

  /** `substituteVariables(text, variables)`: a token whose name is a key of `vars` is
      replaced by that value (an empty value included); any other token stays. Values
      are written out as they are and never scanned again. */
  function Substitute(text: string, vars: map<string, string>): (r: string)
    ensures (forall n :: n in Names(text) ==> n !in vars) ==> r == text
  {
    RenderKeepsUnknown(Scan(text), vars);
    ScanLossless(text);
    if text == "" then text else Render(Scan(text), vars)
  }

  // ---------------------------------------------------------------------------
  // Properties of the scan

  lemma {:induction false} UnscanAppend(a: seq<Piece>, b: seq<Piece>)
    ensures Unscan(a + b) == Unscan(a) + Unscan(b)
  {
    if a != [] {
      assert (a + b)[0] == a[0] && (a + b)[1..] == a[1..] + b;
      UnscanAppend(a[1..], b);
    } else {
      assert a + b == b;
    }
  }

  lemma {:induction false} VarNamesAppend(a: seq<Piece>, b: seq<Piece>)
    ensures VarNames(a + b) == VarNames(a) + VarNames(b)
  {
    if a != [] {
      assert (a + b)[0] == a[0] && (a + b)[1..] == a[1..] + b;
      VarNamesAppend(a[1..], b);
    } else {
      assert a + b == b;
    }
  }

  lemma {:induction false} RenderAppend(a: seq<Piece>, b: seq<Piece>, vars: map<string, string>)
    ensures Render(a + b, vars) == Render(a, vars) + Render(b, vars)
  {
    if a != [] {
      RenderAppend(a[1..], b, vars);
      RenderAppendStep(a, b, vars);
    } else {
      assert a + b == b;
    }
  }

  lemma RenderAppendStep(a: seq<Piece>, b: seq<Piece>, vars: map<string, string>)
    requires a != []
    ensures Render(a + b, vars) == RenderPiece(a[0], vars) + Render(a[1..] + b, vars)
  {
    assert (a + b)[0] == a[0] && (a + b)[1..] == a[1..] + b;
  }

  /** Scanning loses nothing: the pieces written back give the text. */
  lemma {:induction false} ScanLossless(s: string)
    ensures Unscan(Scan(s)) == s
    decreases |s|
  {
    if s != [] {
      match TokenAt(s)
      case Some(t) =>
        ScanLossless(s[t.len..]);
        assert s == TokenText(t.name) + s[t.len..];
      case None =>
        ScanLossless(s[1..]);
        assert s == [s[0]] + s[1..];
    }
  }

  /** A token at the start of the text is one piece; the scan goes on after it. */
  lemma ScanToken(name: string, rest: string)
    requires IsWord(name)
    ensures Scan(TokenText(name) + rest) == [Var(name)] + Scan(rest)
  {
    TokenAtExact(name, rest);
    assert (TokenText(name) + rest)[|name| + 4..] == rest;
  }

  /** One step of the scan: a token at the front, or else one literal character. */
  lemma ScanStep(s: string)
    requires s != []
    ensures TokenAt(s).Some? ==> Scan(s) == [Var(TokenAt(s).value.name)] + Scan(s[TokenAt(s).value.len..])
    ensures TokenAt(s).None? ==> Scan(s) == [Lit(s[0])] + Scan(s[1..])
  {
  }

  /** Scanning text joined at a separator is scanning the two parts. */
  lemma {:induction false} ScanSeparated(a: string, c: char, b: string)
    requires IsSeparator(c)
    ensures Scan(a + [c] + b) == Scan(a) + [Lit(c)] + Scan(b)
    decreases |a|
  {
    if a == [] {
      assert a + [c] + b == [c] + b;
      ScanAfterSeparator(c, b);
      assert Scan(a) == [];
    } else {
      var k, p := ScanFront(a, c, b);
      ScanSeparated(a[k..], c, b);
      ConsJoined(p, Scan(a[k..]), Lit(c), Scan(b));
    }
  }

  lemma ScanAfterSeparator(c: char, b: string)
    requires IsSeparator(c)
    ensures Scan([c] + b) == [Lit(c)] + Scan(b)
  {
    var x := [c] + b;
    TokenAtBeforeSeparator([], c, b);
    assert [] + [c] + b == x;
    ScanStep(x);
    assert x[0] == c && x[1..] == b;
  }

  /** The first piece of a text is also the first piece of that text joined to
      more at a separator. */
  lemma ScanFront(a: string, c: char, b: string) returns (k: nat, p: Piece)
    requires a != [] && IsSeparator(c)
    ensures 1 <= k <= |a|
    ensures Scan(a) == [p] + Scan(a[k..])
    ensures Scan(a + [c] + b) == [p] + Scan(a[k..] + [c] + b)
  {
    var x := a + [c] + b;
    TokenAtBeforeSeparator(a, c, b);
    ScanStep(x);
    ScanStep(a);
    var t := TokenAt(a);
    k := if t.Some? then t.value.len else 1;
    p := if t.Some? then Var(t.value.name) else Lit(a[0]);
    assert x[0] == a[0];
    DropJoined(a, c, b, k);
  }

  lemma DropJoined(a: string, c: char, b: string, k: nat)
    requires k <= |a|
    ensures (a + [c] + b)[k..] == a[k..] + [c] + b
  {
  }

  lemma ConsJoined(p: Piece, x: seq<Piece>, q: Piece, y: seq<Piece>)
    ensures [p] + (x + [q] + y) == [p] + x + [q] + y
  {
  }

  /** One step of the global search. */
  lemma NamesStep(s: string)
    requires s != []
    ensures TokenAt(s).Some? ==> Names(s) == [TokenAt(s).value.name] + Names(s[TokenAt(s).value.len..])
    ensures TokenAt(s).None? ==> Names(s) == Names(s[1..])
  {
    match TokenAt(s)
    case Some(t) =>
      VarNamesAppend([Var(t.name)], Scan(s[t.len..]));
    case None =>
      VarNamesAppend([Lit(s[0])], Scan(s[1..]));
  }

  /** An occurrence in a suffix is an occurrence in the whole text. */
  lemma OccursInSuffix(s: string, k: nat, sub: string, i: int)
    requires k <= |s| && OccursAt(s[k..], sub, i)
    ensures OccursAt(s, sub, k + i)
  {
    assert s[k + i..k + i + |sub|] == s[k..][i..i + |sub|];
  }

  /** Every name the scan reports is a word whose token occurs in the text. */
  lemma {:induction false} NamesSound(s: string, n: string)
    requires n in Names(s)
    ensures IsWord(n) && Contains(s, TokenText(n))
    decreases |s|
  {
    assert s != [];
    NamesStep(s);
    var t := TokenAt(s);
    if t.Some? && n == t.value.name {
      assert OccursAt(s, TokenText(n), 0);
    } else {
      var k := if t.Some? then t.value.len else 1;
      assert n in Names(s[k..]);
      NamesSound(s[k..], n);
      var i :| 0 <= i <= |s[k..]| - |TokenText(n)| && OccursAt(s[k..], TokenText(n), i);
      OccursInSuffix(s, k, TokenText(n), i);
    }
  }

  /** A token text cannot begin strictly inside a matched token. */
  lemma NoTokenInsideToken(s: string, t: Token, j: int, n: string)
    requires TokenAt(s) == Some(t)
    requires 0 < j < t.len
    ensures !OccursAt(s, TokenText(n), j)
  {
    var T := TokenText(n);
    if j + |T| <= |s| {
      var w := s[j..j + |T|];
      var u := s[..t.len];
      assert u == TokenText(t.name);
      if j == 1 {
        assert w[1] == s[2] == u[2] == t.name[0];
        assert w[1] != T[1];
      } else if j < t.len - 2 {
        assert w[0] == s[j] == u[j] == t.name[j - 2];
        assert w[0] != T[0];
      } else {
        assert w[0] == s[j] == u[j] == '}';
        assert w[0] != T[0];
      }
    }
  }

  /** A token text at the front is matched there. */
  lemma TokenAtOccurrence(s: string, n: string)
    requires IsWord(n) && OccursAt(s, TokenText(n), 0)
    ensures TokenAt(s) == Some(Token(n, |n| + 4))
  {
    assert s == TokenText(n) + s[|n| + 4..];
    TokenAtExact(n, s[|n| + 4..]);
  }

  /** An occurrence at or after `k` is an occurrence in the suffix from `k`. */
  lemma OccursInSuffixFrom(s: string, k: nat, sub: string, j: int)
    requires k <= j && OccursAt(s, sub, j)
    ensures OccursAt(s[k..], sub, j - k)
  {
    assert s[k..][j - k..j - k + |sub|] == s[j..j + |sub|];
  }

  /** Every occurrence of a token text in the text is found by the scan. */
  lemma {:induction false} NamesComplete(s: string, n: string, j: int)
    requires IsWord(n) && OccursAt(s, TokenText(n), j)
    ensures n in Names(s)
    decreases |s|, 1
  {
    var t := TokenAt(s);
    if j == 0 {
      TokenAtOccurrence(s, n);
      NamesStep(s);
    } else if t.Some? && j < t.value.len {
      NoTokenInsideToken(s, t.value, j, n);
      assert false;
    } else {
      NamesCompleteAfter(s, n, j, if t.Some? then t.value.len else 1);
    }
  }

  /** The occurrence lies after the first step of the scan, so the rest of the scan
      finds it. */
  lemma {:induction false} NamesCompleteAfter(s: string, n: string, j: int, k: nat)
    requires IsWord(n) && OccursAt(s, TokenText(n), j) && s != []
    requires k == (if TokenAt(s).Some? then TokenAt(s).value.len else 1) && k <= j
    ensures n in Names(s)
    decreases |s|, 0
  {
    OccursInSuffixFrom(s, k, TokenText(n), j);
    NamesComplete(s[k..], n, j - k);
    NamesStep(s);
  }

  /** The names found are exactly the words whose `{{word}}` occurs in the text. */
  lemma NamesExactly(s: string, n: string)
    ensures n in Names(s) <==> IsWord(n) && Contains(s, TokenText(n))
  {
    if n in Names(s) {
      NamesSound(s, n);
    }
    if IsWord(n) && Contains(s, TokenText(n)) {
      var j :| 0 <= j <= |s| - |TokenText(n)| && OccursAt(s, TokenText(n), j);
      NamesComplete(s, n, j);
    }
  }

  // ---------------------------------------------------------------------------
  // Properties of substitution

  /** Pieces none of whose tokens names a key render as the text they came from. */
  lemma {:induction false} RenderKeepsUnknown(ps: seq<Piece>, vars: map<string, string>)
    ensures (forall n :: n in VarNames(ps) ==> n !in vars) ==> Render(ps, vars) == Unscan(ps)
  {
    if ps != [] && forall n :: n in VarNames(ps) ==> n !in vars {
      VarNamesAppend([ps[0]], ps[1..]);
      assert ps == [ps[0]] + ps[1..];
      RenderKeepsUnknown(ps[1..], vars);
    }
  }

  /** A token at the front is replaced by its value when its name is a key (also by an
      empty value) and kept verbatim otherwise; the rest is substituted on its own. */
  lemma SubstituteToken(name: string, rest: string, vars: map<string, string>)
    requires IsWord(name)
    ensures Substitute(TokenText(name) + rest, vars)
      == (if name in vars then vars[name] else TokenText(name)) + Substitute(rest, vars)
  {
    ScanToken(name, rest);
    RenderAppend([Var(name)], Scan(rest), vars);
  }

  /** Substitution works separately on the two sides of a separator. */
  lemma SubstituteSeparated(a: string, c: char, b: string, vars: map<string, string>)
    requires IsSeparator(c)
    ensures Substitute(a + [c] + b, vars) == Substitute(a, vars) + [c] + Substitute(b, vars)
  {
    ScanSeparated(a, c, b);
    RenderAppend(Scan(a) + [Lit(c)], Scan(b), vars);
    RenderAppend(Scan(a), [Lit(c)], vars);
  }

  /** Matching is leftmost and non-overlapping: in `{{{name}}}` the first brace is
      literal text and the token starts at the second one. */
  lemma ScanTripleBraces(name: string, rest: string)
    requires IsWord(name)
    ensures Scan("{" + TokenText(name) + rest) == [Lit('{'), Var(name)] + Scan(rest)
  {
    var x := "{" + TokenText(name) + rest;
    BraceBeforeToken(name, rest);
    ScanStep(x);
    ScanToken(name, rest);
  }

  lemma BraceBeforeToken(name: string, rest: string)
    ensures TokenAt("{" + TokenText(name) + rest).None?
    ensures ("{" + TokenText(name) + rest)[1..] == TokenText(name) + rest
  {
    var x := "{" + TokenText(name) + rest;
    assert x[2..][0] == '{';
  }

  /** So only the inner token is replaced, and the outer braces stay. */
  lemma SubstituteTripleBraces(name: string, value: string)
    requires IsWord(name)
    ensures Substitute("{" + TokenText(name) + "}", map[name := value]) == "{" + value + "}"
  {
    var vars := map[name := value];
    ScanTripleBraces(name, "}");
    ScanOneLit('}');
    var ps := [Lit('{'), Var(name)];
    assert ps == [Lit('{')] + [Var(name)];
    RenderAppend(ps, [Lit('}')], vars);
    RenderAppend([Lit('{')], [Var(name)], vars);
    RenderOne(Lit('{'), vars);
    RenderOne(Var(name), vars);
    RenderOne(Lit('}'), vars);
  }

  lemma ScanOneLit(c: char)
    requires c != '{'
    ensures Scan([c]) == [Lit(c)]
  {
    assert [c][1..] == [];
  }

  lemma RenderOne(p: Piece, vars: map<string, string>)
    ensures Render([p], vars) == RenderPiece(p, vars)
  {
    assert [p][1..] == [];
  }

  /** A substituted value is not scanned again, and an empty value still replaces. */
  lemma SubstituteNoRecursion()
    ensures Substitute("{{a}}", map["a" := "{{b}}", "b" := "B"]) == "{{b}}"
    ensures Substitute("{{a}}", map["a" := ""]) == ""
  {
    assert "{{a}}" == TokenText("a") + "";
    SubstituteToken("a", "", map["a" := "{{b}}", "b" := "B"]);
    SubstituteToken("a", "", map["a" := ""]);
  }

  // ---------------------------------------------------------------------------
  // De-duplication: a JavaScript `Set` of strings keeps its first-insertion order.

  /** `set.add(x)`. */
  function Add(acc: seq<string>, x: string): seq<string>
  {
    if x in acc then acc else acc + [x]
  }

  /** `xs.forEach(v => set.add(v))`, starting from `acc`. */
  function AddAll(acc: seq<string>, xs: seq<string>): seq<string>
  {
    if xs == [] then acc else Add(AddAll(acc, xs[..|xs| - 1]), xs[|xs| - 1])
  }

  /** `Array.from(new Set(xs))`. */
  function Dedup(xs: seq<string>): seq<string>
  {
    AddAll([], xs)
  }

  predicate Distinct(xs: seq<string>)
  {
    forall i, j :: 0 <= i < j < |xs| ==> xs[i] != xs[j]
  }

  function FirstIndex(xs: seq<string>, x: string): (k: nat)
    requires x in xs
    ensures k < |xs| && xs[k] == x && x !in xs[..k]
  {
    if xs[0] == x then 0 else 1 + FirstIndex(xs[1..], x)
  }

  lemma {:induction false} FirstIndexAt(xs: seq<string>, x: string, k: nat)
    requires k < |xs| && xs[k] == x && x !in xs[..k]
    ensures FirstIndex(xs, x) == k
  {
    if k > 0 {
      assert xs[0] in xs[..k];
      assert xs[1..][k - 1] == x && xs[1..][..k - 1] == xs[..k][1..];
      FirstIndexAt(xs[1..], x, k - 1);
    }
  }

  lemma FirstIndexSnoc(p: seq<string>, x: string, y: string)
    requires y in p + [x]
    ensures y in p ==> FirstIndex(p + [x], y) == FirstIndex(p, y)
    ensures y !in p ==> FirstIndex(p + [x], y) == |p|
  {
    if y in p {
      var m := FirstIndex(p, y);
      assert (p + [x])[m] == y && (p + [x])[..m] == p[..m];
      FirstIndexAt(p + [x], y, m);
    } else {
      assert (p + [x])[|p|] == y && (p + [x])[..|p|] == p;
      FirstIndexAt(p + [x], y, |p|);
    }
  }

  lemma {:induction false} AddAllMembers(acc: seq<string>, xs: seq<string>, y: string)
    ensures y in AddAll(acc, xs) <==> y in acc || y in xs
    decreases |xs|
  {
    if xs != [] {
      AddAllMembers(acc, xs[..|xs| - 1], y);
      assert xs == xs[..|xs| - 1] + [xs[|xs| - 1]];
    }
  }

  /** What `Array.from(new Set(xs))` promises: no repeats, the same elements, and the
      elements ordered by where they first occur. */
  lemma DedupProperties(xs: seq<string>)
    ensures Distinct(Dedup(xs))
    ensures forall y :: y in Dedup(xs) <==> y in xs
    ensures forall i, j :: 0 <= i < j < |Dedup(xs)| ==>
      FirstIndex(xs, Dedup(xs)[i]) < FirstIndex(xs, Dedup(xs)[j])
  {
    DedupDistinct(xs);
    DedupOrder(xs);
  }

  lemma DedupMembers(xs: seq<string>)
    ensures forall y :: y in Dedup(xs) <==> y in xs
  {
    forall y ensures y in Dedup(xs) <==> y in xs {
      AddAllMembers([], xs, y);
    }
  }

  lemma {:induction false} DedupDistinct(xs: seq<string>)
    ensures Distinct(Dedup(xs))
    decreases |xs|
  {
    if xs != [] {
      var p, x := xs[..|xs| - 1], xs[|xs| - 1];
      DedupDistinct(p);
      var d := Dedup(p);
      assert Dedup(xs) == Add(d, x);
      if x !in d {
        forall i, j | 0 <= i < j < |d + [x]| ensures (d + [x])[i] != (d + [x])[j] {
          if j == |d| {
            assert (d + [x])[i] == d[i];
          }
        }
      }
    }
  }

  lemma {:induction false} DedupOrder(xs: seq<string>)
    ensures forall y :: y in Dedup(xs) <==> y in xs
    ensures forall i, j :: 0 <= i < j < |Dedup(xs)| ==>
      FirstIndex(xs, Dedup(xs)[i]) < FirstIndex(xs, Dedup(xs)[j])
    decreases |xs|
  {
    DedupMembers(xs);
    if xs != [] {
      var p, x := xs[..|xs| - 1], xs[|xs| - 1];
      assert xs == p + [x];
      DedupOrder(p);
      var d := Dedup(p);
      forall y | y in d ensures FirstIndex(xs, y) == FirstIndex(p, y) {
        FirstIndexSnoc(p, x, y);
      }
      if x !in d {
        FirstIndexSnoc(p, x, x);
        forall i | 0 <= i < |d| ensures FirstIndex(xs, d[i]) < FirstIndex(xs, x) {
          assert d[i] in p;
        }
      }
    }
  }

  lemma {:induction false} AddAllConcat(a: seq<string>, p: seq<string>, q: seq<string>)
    ensures AddAll(AddAll(a, p), q) == AddAll(a, p + q)
    decreases |q|
  {
    if q == [] {
      assert p + q == p;
    } else {
      AddAllConcat(a, p, q[..|q| - 1]);
      assert (p + q)[..|p + q| - 1] == p + q[..|q| - 1];
    }
  }

  /** Adding the de-duplicated list adds the same as adding the list itself. */
  lemma {:induction false} AddAllDedup(a: seq<string>, q: seq<string>)
    ensures AddAll(a, Dedup(q)) == AddAll(a, q)
    decreases |q|
  {
    if q != [] {
      var p, x := q[..|q| - 1], q[|q| - 1];
      AddAllDedup(a, p);
      AddAllMembers([], p, x);
      AddAllMembers(a, p, x);
      if x !in p {
        assert Dedup(q) == Dedup(p) + [x];
        assert Dedup(q)[..|Dedup(q)| - 1] == Dedup(p);
      }
    }
  }

  // ---------------------------------------------------------------------------
  // The extraction operations

  /** Adds each item, in order, into the insertion-ordered set `acc`. */
  method AddEach(acc: seq<string>, items: seq<string>) returns (r: seq<string>)
    ensures r == AddAll(acc, items)
  {
    r := acc;
    for k := 0 to |items|
      invariant r == AddAll(acc, items[..k])
    {
      assert items[..k + 1][..k] == items[..k];
      r := Add(r, items[k]);
    }
    assert items[..|items|] == items;
  }

  lemma AddAllCons(acc: seq<string>, x: string, rest: seq<string>)
    ensures AddAll(acc, [x] + rest) == AddAll(Add(acc, x), rest)
  {
    AddAllConcat(acc, [x], rest);
    assert [x][..0] == [];
  }

  /** The search moving on from index `i` past a token adds the token's name. */
  lemma NamesAfterToken(text: string, i: nat, acc: seq<string>, t: Token)
    requires i < |text| && TokenAt(text[i..]) == Some(t)
    ensures t.len <= |text| - i
    ensures AddAll(acc, Names(text[i..])) == AddAll(Add(acc, t.name), Names(text[i + t.len..]))
  {
    var rest := text[i..];
    NamesStep(rest);
    assert rest[t.len..] == text[i + t.len..];
    AddAllCons(acc, t.name, Names(rest[t.len..]));
  }

  /** The search moving on from index `i` past one character that starts no token. */
  lemma NamesAfterChar(text: string, i: nat)
    requires i < |text| && TokenAt(text[i..]).None?
    ensures Names(text[i..]) == Names(text[i + 1..])
  {
    NamesStep(text[i..]);
    assert text[i..][1..] == text[i + 1..];
  }

  /** `extractVariables(text)`: the distinct names of the text's tokens in the order
      they first occur (DedupProperties and NamesExactly say what that list holds). */
  method ExtractVariables(text: string) returns (vars: seq<string>)
    ensures vars == Dedup(Names(text))
  {
    if text == "" {
      return [];
    }
    vars := [];
    var i := 0;
    while i < |text|
      invariant 0 <= i <= |text|
      invariant AddAll(vars, Names(text[i..])) == Dedup(Names(text))
      decreases |text| - i
    {
      var t := TokenAt(text[i..]);
      if t.Some? {
        NamesAfterToken(text, i, vars, t.value);
        vars := Add(vars, t.value.name);
        i := i + t.value.len;
      } else {
        NamesAfterChar(text, i);
        i := i + 1;
      }
    }
    assert text[i..] == [];
  }

  /** `extractAllVariables(subject, bodyText, bodyHtml)`: subject names first, then those
      of the text body, then those of the html body, each name once. An absent or
      empty body adds nothing. */
  method ExtractAllVariables(subject: string, bodyText: Option<string>, bodyHtml: Option<string>)
    returns (all: seq<string>)
    ensures all == Dedup(Names(subject) + Names(OrElse(bodyText, "")) + Names(OrElse(bodyHtml, "")))
  {
    var s, t, h := Names(subject), Names(OrElse(bodyText, "")), Names(OrElse(bodyHtml, ""));
    all := [];
    var fromSubject := ExtractVariables(subject);
    all := AddEach(all, fromSubject);
    AddAllDedup([], s);
    assert all == Dedup(s);
    if Truthy(bodyText) {
      var fromText := ExtractVariables(bodyText.value);
      all := AddEach(all, fromText);
      AddAllDedup(Dedup(s), t);
      AddAllConcat([], s, t);
    } else {
      assert t == [] && s + t == s;
    }
    assert all == Dedup(s + t);
    if Truthy(bodyHtml) {
      var fromHtml := ExtractVariables(bodyHtml.value);
      all := AddEach(all, fromHtml);
      AddAllDedup(Dedup(s + t), h);
      AddAllConcat([], s + t, h);
    } else {
      assert h == [] && s + t + h == s + t;
    }
  }
}
