/** Rendering of sales scripts: one pass over the text that substitutes `{{ key }}` placeholders. */
module ScriptTemplate {
  import opened Wrappers
  import opened JsString

  // ----- the placeholder pattern, declaratively

  /** `\w`: ASCII letters, digits and the underscore. */
  predicate IsWord(c: char) {
    'a' <= c <= 'z' || 'A' <= c <= 'Z' || '0' <= c <= '9' || c == '_'
  }

  /** The word characters of section 22.2.2.9 of ECMA-262 (ES2023), by code unit. */
  lemma WordCharsAre(c: char)
    ensures var n := c as int;
            IsWord(c) <==> 48 <= n <= 57 || 65 <= n <= 90 || n == 95 || 97 <= n <= 122
  {
  }

  predicate AllWord(s: string) {
    forall i | 0 <= i < |s| :: IsWord(s[i])
  }

  predicate AllSpace(s: string) {
    forall i | 0 <= i < |s| :: IsSpace(s[i])
  }

  ghost predicate Spelled(text: string, before: string, key: string, after: string) {
    text == "{{" + before + key + after + "}}" && AllSpace(before) && AllSpace(after) && AllWord(key) && key != ""
  }

  /** `text` is matched by the pattern as a whole, with `key` captured. */
  ghost predicate IsPlaceholder(text: string, key: string) {
    exists before, after :: Spelled(text, before, key, after)
  }

  // ----- the scanner

  function SpacesAt(s: string, i: nat): (j: nat)
    requires i <= |s|
    ensures i <= j <= |s|
    decreases |s| - i
  {
    if i < |s| && IsSpace(s[i]) then SpacesAt(s, i + 1) else i
  }

  function WordAt(s: string, i: nat): (j: nat)
    requires i <= |s|
    ensures i <= j <= |s|
    decreases |s| - i
  {
    if i < |s| && IsWord(s[i]) then WordAt(s, i + 1) else i
  }

  /** The length and key of the placeholder that starts the text, if one does. */
  function Placeholder(s: string): Option<(nat, string)> {
    if |s| < 2 || s[0] != '{' || s[1] != '{' then None
    else
      var a := SpacesAt(s, 2);
      var b := WordAt(s, a);
      var c := SpacesAt(s, b);
      if a < b && c + 2 <= |s| && s[c] == '}' && s[c + 1] == '}' then Some((c + 2, s[a..b])) else None
  }

  lemma {:induction false} SpacesAtExactly(s: string, i: nat, j: nat)
    requires i <= j <= |s| && AllSpace(s[i..j]) && (j < |s| ==> !IsSpace(s[j]))
    ensures SpacesAt(s, i) == j
    decreases j - i
  {
    if i < j {
      assert s[i..j][0] == s[i];
      assert s[i..j][1..] == s[i + 1..j];
      SpacesAtExactly(s, i + 1, j);
    }
  }

  lemma {:induction false} WordAtExactly(s: string, i: nat, j: nat)
    requires i <= j <= |s| && AllWord(s[i..j]) && (j < |s| ==> !IsWord(s[j]))
    ensures WordAt(s, i) == j
    decreases j - i
  {
    if i < j {
      assert s[i..j][0] == s[i];
      assert s[i..j][1..] == s[i + 1..j];
      WordAtExactly(s, i + 1, j);
    }
  }

  lemma {:induction false} SpacesAtSpells(s: string, i: nat)
    requires i <= |s|
    ensures AllSpace(s[i..SpacesAt(s, i)])
    decreases |s| - i
  {
    if i < |s| && IsSpace(s[i]) {
      SpacesAtSpells(s, i + 1);
      assert s[i..SpacesAt(s, i)] == [s[i]] + s[i + 1..SpacesAt(s, i)];
    }
  }

  lemma {:induction false} WordAtSpells(s: string, i: nat)
    requires i <= |s|
    ensures AllWord(s[i..WordAt(s, i)])
    decreases |s| - i
  {
    if i < |s| && IsWord(s[i]) {
      WordAtSpells(s, i + 1);
      assert s[i..WordAt(s, i)] == [s[i]] + s[i + 1..WordAt(s, i)];
    }
  }

  lemma PlaceholderIsSound(s: string)
    requires Placeholder(s).Some?
    ensures var (n, key) := Placeholder(s).value; 0 < n <= |s| && IsPlaceholder(s[..n], key)
  {
    var a := SpacesAt(s, 2);
    var b := WordAt(s, a);
    var c := SpacesAt(s, b);
    SpacesAtSpells(s, 2);
    WordAtSpells(s, a);
    SpacesAtSpells(s, b);
    assert s[..c + 2] == "{{" + s[2..a] + s[a..b] + s[b..c] + "}}";
    assert Spelled(s[..c + 2], s[2..a], s[a..b], s[b..c]);
  }

  /** Where the parts of a placeholder lie in a text it starts. */
  lemma Layout(s: string, n: nat, before: string, key: string, after: string)
    requires n <= |s| && Spelled(s[..n], before, key, after)
    ensures var a := 2 + |before|; var b := a + |key|; var c := b + |after|;
            && n == c + 2 && s[0] == '{' && s[1] == '{' && s[c] == '}' && s[c + 1] == '}'
            && s[2..a] == before && s[a..b] == key && s[b..c] == after
  {
    var a := 2 + |before|;
    var b := a + |key|;
    var c := b + |after|;
    var t := s[..n];
    assert t[0] == '{' && t[1] == '{' && t[c] == '}' && t[c + 1] == '}';
    assert t[2..a] == before && t[a..b] == key && t[b..c] == after;
    assert s[2..a] == t[2..a] && s[a..b] == t[a..b] && s[b..c] == t[b..c];
  }

  lemma PlaceholderIsComplete(s: string, n: nat, key: string)
    requires n <= |s| && IsPlaceholder(s[..n], key)
    ensures Placeholder(s) == Some((n, key))
  {
    var before, after :| Spelled(s[..n], before, key, after);
    var a := 2 + |before|;
    var b := a + |key|;
    var c := b + |after|;
    Layout(s, n, before, key, after);
    assert IsWord(s[a]) by {
      assert s[a] == s[a..b][0];
    }
    assert c > b ==> IsSpace(s[b]) by {
      assert c > b ==> s[b] == s[b..c][0];
    }
    SpacesAtExactly(s, 2, a);
    WordAtExactly(s, a, b);
    SpacesAtExactly(s, b, c);
  }

  /** The scanner accepts exactly what the pattern matches, and the match is unique. */
  lemma PlaceholderIffMatch(s: string, n: nat, key: string)
    ensures Placeholder(s) == Some((n, key)) <==> n <= |s| && IsPlaceholder(s[..n], key)
  {
    if Placeholder(s) == Some((n, key)) {
      PlaceholderIsSound(s);
    }
    if n <= |s| && IsPlaceholder(s[..n], key) {
      PlaceholderIsComplete(s, n, key);
    }
  }

  datatype Piece = Lit(c: char) | Hole(text: string, key: string)

  function Source(p: Piece): string {
    match p case Lit(c) => [c] case Hole(text, _) => text
  }

  function Concat(ps: seq<Piece>): string {
    if ps == [] then "" else Source(ps[0]) + Concat(ps[1..])
  }

  /** Left to right, without overlaps: at each position a placeholder if one starts there, else one character. */
  function Scan(s: string): seq<Piece> {
    if s == "" then []
    else match Placeholder(s)
      case Some((n, key)) => [Hole(s[..n], key)] + Scan(s[n..])
      case None => [Lit(s[0])] + Scan(s[1..])
  }

  lemma {:induction false} ScanIsLossless(s: string)
    ensures Concat(Scan(s)) == s
    decreases |s|
  {
    if s != "" {
      match Placeholder(s)
      case Some((n, key)) =>
        ScanIsLossless(s[n..]);
        assert ([Hole(s[..n], key)] + Scan(s[n..]))[1..] == Scan(s[n..]);
      case None =>
        ScanIsLossless(s[1..]);
        assert ([Lit(s[0])] + Scan(s[1..]))[1..] == Scan(s[1..]);
    }
  }

  /** A hole is a match of the pattern where it stands; at a literal no match starts. */
  ghost predicate LeftmostAt(ps: seq<Piece>, i: nat)
    requires i < |ps|
  {
    var rest := Concat(ps[i..]);
    match ps[i]
    case Hole(text, key) => IsPlaceholder(text, key)
    case Lit(_) => forall n, key | 0 <= n <= |rest| :: !IsPlaceholder(rest[..n], key)
  }

  lemma {:induction false} ScanIsLeftmost(s: string, i: nat)
    requires i < |Scan(s)|
    ensures LeftmostAt(Scan(s), i)
    decreases |s|
  {
    var ps := Scan(s);
    if i == 0 {
      ScanIsLossless(s);
      assert ps[0..] == ps;
      forall n, key | 0 <= n <= |s| ensures IsPlaceholder(s[..n], key) <==> Placeholder(s) == Some((n, key)) {
        PlaceholderIffMatch(s, n, key);
      }
      if Placeholder(s).Some? {
        PlaceholderIsSound(s);
      }
    } else {
      var rest := if Placeholder(s).Some? then s[Placeholder(s).value.0..] else s[1..];
      ScanIsLeftmost(rest, i - 1);
      assert ps == [ps[0]] + Scan(rest);
      assert ps[i..] == Scan(rest)[i - 1..];
    }
  }

  // ----- rendering

  /** The values a context can hold; a number is given by its decimal text. */
  datatype JsValue = Str(s: string) | Num(text: string) | Bool(b: bool) | Other

  type Context = map<string, JsValue>

  /** What a key is replaced by; undefined values, null and objects are not shown. */
  function Shown(ctx: Context, key: string): Option<string> {
    if key !in ctx then None
    else match ctx[key]
      case Str(s) => Some(s)
      case Num(text) => Some(text)
      case Bool(b) => Some(if b then "true" else "false")
      case Other => None
  }

  function RenderPiece(p: Piece, ctx: Context): string {
    if p.Hole? && Shown(ctx, p.key).Some? then Shown(ctx, p.key).value else Source(p)
  }

  function RenderPieces(ps: seq<Piece>, ctx: Context): string {
    if ps == [] then "" else RenderPiece(ps[0], ctx) + RenderPieces(ps[1..], ctx)
  }

  function Render(content: string, ctx: Context): string {
    RenderPieces(Scan(content), ctx)
  }

  lemma {:induction false} NothingShown(ps: seq<Piece>, ctx: Context)
    requires forall i | 0 <= i < |ps| :: ps[i].Hole? ==> Shown(ctx, ps[i].key).None?
    ensures RenderPieces(ps, ctx) == Concat(ps)
  {
    if ps != [] {
      NothingShown(ps[1..], ctx);
    }
  }

  /** Text whose placeholders have no defined value comes back unchanged. */
  lemma RenderIdentity(content: string, ctx: Context)
    requires forall i | 0 <= i < |Scan(content)| ::
               Scan(content)[i].Hole? ==> Shown(ctx, Scan(content)[i].key).None?
    ensures Render(content, ctx) == content
  {
    NothingShown(Scan(content), ctx);
    ScanIsLossless(content);
  }

  // ----- rendering in stages

  predicate Braceless(s: string) {
    forall i | 0 <= i < |s| :: s[i] != '{' && s[i] != '}'
  }

  ghost predicate CleanPiece(p: Piece) {
    match p case Lit(c) => Braceless([c]) case Hole(text, key) => IsPlaceholder(text, key)
  }

  ghost predicate Clean(ps: seq<Piece>) {
    forall i | 0 <= i < |ps| :: CleanPiece(ps[i])
  }

  /** Scanning undoes concatenation when only placeholders contain braces. */
  lemma {:induction false} ScanOfConcat(ps: seq<Piece>)
    requires Clean(ps)
    ensures Scan(Concat(ps)) == ps
  {
    if ps != [] {
      var s, rest := Concat(ps), Concat(ps[1..]);
      assert CleanPiece(ps[0]);
      ScanOfConcat(ps[1..]);
      match ps[0]
      case Lit(c) =>
        assert [c][0] == c;
        assert s[0] == c && s[1..] == rest;
      case Hole(text, key) =>
        assert s[..|text|] == text && s[|text|..] == rest;
        PlaceholderNotEmpty(text, key);
        PlaceholderIsComplete(s, |text|, key);
    }
  }

  lemma PlaceholderNotEmpty(text: string, key: string)
    requires IsPlaceholder(text, key)
    ensures |text| > 4
  {
    var before, after :| Spelled(text, before, key, after);
  }

  function Literal(s: string): seq<Piece> {
    seq(|s|, i requires 0 <= i < |s| => Lit(s[i]))
  }

  lemma {:induction false} LiteralText(s: string, ps: seq<Piece>, ctx: Context)
    ensures Concat(Literal(s) + ps) == s + Concat(ps)
    ensures RenderPieces(Literal(s) + ps, ctx) == s + RenderPieces(ps, ctx)
  {
    if s == "" {
      assert Literal(s) + ps == ps;
    } else {
      var rest := Literal(s[1..]) + ps;
      LiteralText(s[1..], ps, ctx);
      assert Literal(s) + ps == [Lit(s[0])] + rest;
      OneMorePiece(Lit(s[0]), rest, ctx);
      assert [s[0]] + s[1..] == s;
    }
  }

  lemma OneMorePiece(p: Piece, ps: seq<Piece>, ctx: Context)
    ensures Concat([p] + ps) == Source(p) + Concat(ps)
    ensures RenderPieces([p] + ps, ctx) == RenderPiece(p, ctx) + RenderPieces(ps, ctx)
  {
    assert ([p] + ps)[1..] == ps;
  }

  /** The pieces of the rendered text: shown values have become literals. */
  function Substitute(ps: seq<Piece>, ctx: Context): seq<Piece> {
    if ps == [] then []
    else if ps[0].Hole? && Shown(ctx, ps[0].key).Some?
    then Literal(Shown(ctx, ps[0].key).value) + Substitute(ps[1..], ctx)
    else [ps[0]] + Substitute(ps[1..], ctx)
  }

  ghost predicate ShowsBraceless(ps: seq<Piece>, ctx: Context) {
    forall i | 0 <= i < |ps| :: ps[i].Hole? && Shown(ctx, ps[i].key).Some? ==> Braceless(Shown(ctx, ps[i].key).value)
  }

  lemma {:induction false} SubstituteStaysClean(ps: seq<Piece>, ctx: Context)
    requires Clean(ps) && ShowsBraceless(ps, ctx)
    ensures Clean(Substitute(ps, ctx))
  {
    if ps != [] {
      SubstituteStaysClean(ps[1..], ctx);
      assert CleanPiece(ps[0]);
      if ps[0].Hole? && Shown(ctx, ps[0].key).Some? {
        var value := Shown(ctx, ps[0].key).value;
        assert Braceless(value);
        forall i | 0 <= i < |value| ensures CleanPiece(Literal(value)[i]) {}
      }
    }
  }

  /** Values of the first context win where they are shown. */
  function Union(first: Context, second: Context): Context {
    map key | key in first.Keys + second.Keys && (Shown(first, key).Some? || key in second) ::
      if Shown(first, key).Some? then first[key] else second[key]
  }

  lemma UnionShows(first: Context, second: Context, p: Piece)
    ensures RenderPiece(p, Union(first, second)) ==
            if p.Hole? && Shown(first, p.key).Some? then RenderPiece(p, first) else RenderPiece(p, second)
  {
  }

  lemma {:induction false} SubstituteThenRender(ps: seq<Piece>, first: Context, second: Context)
    ensures Concat(Substitute(ps, first)) == RenderPieces(ps, first)
    ensures RenderPieces(Substitute(ps, first), second) == RenderPieces(ps, Union(first, second))
  {
    if ps != [] {
      SubstituteThenRender(ps[1..], first, second);
      var rest := Substitute(ps[1..], first);
      UnionShows(first, second, ps[0]);
      if ps[0].Hole? && Shown(first, ps[0].key).Some? {
        LiteralText(Shown(first, ps[0].key).value, rest, second);
      } else {
        OneMorePiece(ps[0], rest, second);
      }
    }
  }

  /** When neither the literal text nor the first values contain braces, rendering with one context
      and then another is rendering once with both. */
  lemma StagedRendering(content: string, first: Context, second: Context)
    requires forall i | 0 <= i < |Scan(content)| :: Scan(content)[i].Lit? ==> Braceless([Scan(content)[i].c])
    requires ShowsBraceless(Scan(content), first)
    ensures Render(Render(content, first), second) == Render(content, Union(first, second))
  {
    var ps := Scan(content);
    forall i | 0 <= i < |ps| ensures CleanPiece(ps[i]) {
      ScanIsLeftmost(content, i);
    }
    SubstituteStaysClean(ps, first);
    SubstituteThenRender(ps, first, second);
    ScanOfConcat(Substitute(ps, first));
  }

  // ----- what one placeholder is replaced by

  lemma CleanConcat(s: string, rest: seq<Piece>)
    requires Braceless(s) && Clean(rest)
    ensures Clean(Literal(s) + rest)
  {
    forall i | 0 <= i < |s| ensures CleanPiece(Literal(s)[i]) {}
  }

  /** A text, a number as it is written, "true" or "false"; anything else leaves the placeholder as it
      stands, spaces included, and so does a key that is not there. */
  ghost function Replacement(text: string, key: string, ctx: Context): string {
    if key !in ctx then text
    else match ctx[key]
      case Str(s) => s
      case Num(digits) => digits
      case Bool(b) => if b then "true" else "false"
      case Other => text
  }

  lemma HoleThenText(text: string, key: string, after: string, ctx: Context)
    requires Braceless(after) && IsPlaceholder(text, key)
    ensures var ps := [Hole(text, key)] + Literal(after);
            && Clean(ps) && Concat(ps) == text + after
            && RenderPieces(ps, ctx) == Replacement(text, key, ctx) + after
  {
    assert Literal(after) + [] == Literal(after) && after + "" == after;
    CleanConcat(after, []);
    LiteralText(after, [], ctx);
    OneMorePiece(Hole(text, key), Literal(after), ctx);
  }

  lemma RenderAfterText(before: string, rest: seq<Piece>, ctx: Context)
    requires Braceless(before) && Clean(rest)
    ensures Render(before + Concat(rest), ctx) == before + RenderPieces(rest, ctx)
  {
    CleanConcat(before, rest);
    LiteralText(before, rest, ctx);
    ScanOfConcat(Literal(before) + rest);
  }

  lemma Regroup(a: string, b: string, c: string)
    ensures a + b + c == a + (b + c)
  {
  }

  /** One placeholder in plain text is replaced where it stands; the text around it stays. */
  lemma RenderInside(before: string, text: string, key: string, after: string, ctx: Context)
    requires Braceless(before) && Braceless(after) && IsPlaceholder(text, key)
    ensures Render(before + text + after, ctx) == before + Replacement(text, key, ctx) + after
  {
    HoleThenText(text, key, after, ctx);
    RenderAfterText(before, [Hole(text, key)] + Literal(after), ctx);
    Regroup(before, text, after);
    Regroup(before, Replacement(text, key, ctx), after);
  }

  // ----- when exactly staging works

  ghost predicate HolesMatch(ps: seq<Piece>) {
    forall i | 0 <= i < |ps| && ps[i].Hole? :: IsPlaceholder(ps[i].text, ps[i].key)
  }

  lemma {:induction false} SubstituteKeepsHoles(ps: seq<Piece>, ctx: Context)
    requires HolesMatch(ps)
    ensures HolesMatch(Substitute(ps, ctx))
  {
    if ps != [] {
      SubstituteKeepsHoles(ps[1..], ctx);
    }
  }

  lemma NoInnerBrace(text: string, key: string)
    requires IsPlaceholder(text, key)
    ensures |text| > 4 && text[0] == '{' && text[1] == '{'
    ensures forall i | 2 <= i < |text| :: text[i] != '{'
  {
    var before, after :| Spelled(text, before, key, after);
    assert text[..|text|] == text;
    Layout(text, |text|, before, key, after);
    var a := 2 + |before|;
    var b := a + |key|;
    forall i | 2 <= i < |text| ensures text[i] != '{' {
      if i < a {
        assert text[i] == before[i - 2];
      } else if i < b {
        assert text[i] == key[i - a];
      } else if i < b + |after| {
        assert text[i] == after[i - b];
      }
    }
  }

  predicate OpensAt(s: string, p: nat) {
    p + 1 < |s| && s[p] == '{' && s[p + 1] == '{'
  }

  lemma OneFurther<T>(xs: seq<T>, n: nat)
    requires 0 < n <= |xs|
    ensures xs[..n] == [xs[0]] + xs[1..][..n - 1] && xs[n..] == xs[1..][n - 1..]
  {
  }

  lemma LiteralFront(s: string, n: nat)
    requires 0 < n <= |s|
    ensures Literal(s[..n]) == [Lit(s[0])] + Literal(s[1..][..n - 1])
  {
    OneFurther(s, n);
  }

  /** Text without an opening pair of braces comes from literals only. */
  lemma {:induction false} LiteralsUnder(ps: seq<Piece>, n: nat)
    requires HolesMatch(ps) && n <= |Concat(ps)| && forall p | 0 <= p < n :: !OpensAt(Concat(ps), p)
    ensures n <= |ps| && ps[..n] == Literal(Concat(ps)[..n]) && Concat(ps[n..]) == Concat(ps)[n..]
    decreases |ps|, 1
  {
    if n > 0 {
      if ps[0].Hole? {
        NoInnerBrace(ps[0].text, ps[0].key);
        assert OpensAt(Concat(ps), 0);
      } else {
        AfterLiteral(ps, n);
      }
    }
  }

  lemma OpensLater(c: char, rest: string, n: nat)
    requires 0 < n && forall p | 1 <= p < n :: !OpensAt([c] + rest, p)
    ensures forall p | 0 <= p < n - 1 :: !OpensAt(rest, p)
  {
    forall p | 0 <= p < n - 1 ensures !OpensAt(rest, p) {
      assert !OpensAt([c] + rest, p + 1);
    }
  }

  lemma OneMoreLiteral(c: char, ps: seq<Piece>, text: string, n: nat)
    requires 0 < n && n - 1 <= |ps| && n - 1 <= |text|
    requires ps[..n - 1] == Literal(text[..n - 1]) && Concat(ps[n - 1..]) == text[n - 1..]
    ensures ([Lit(c)] + ps)[..n] == Literal(([c] + text)[..n])
    ensures Concat(([Lit(c)] + ps)[n..]) == ([c] + text)[n..]
  {
    OneFurther([Lit(c)] + ps, n);
    OneFurther([c] + text, n);
    LiteralFront([c] + text, n);
    assert ([Lit(c)] + ps)[1..] == ps && ([c] + text)[1..] == text;
  }

  lemma {:induction false} AfterLiteral(ps: seq<Piece>, n: nat)
    requires HolesMatch(ps) && ps != [] && ps[0].Lit? && 0 < n <= |Concat(ps)|
    requires forall p | 1 <= p < n :: !OpensAt(Concat(ps), p)
    ensures n <= |ps| && ps[..n] == Literal(Concat(ps)[..n]) && Concat(ps[n..]) == Concat(ps)[n..]
    decreases |ps|, 0
  {
    var c, rest := ps[0].c, Concat(ps[1..]);
    assert Concat(ps) == [c] + rest && ps == [Lit(c)] + ps[1..];
    OpensLater(c, rest, n);
    LiteralsUnder(ps[1..], n - 1);
    OneMoreLiteral(c, ps[1..], rest, n);
  }

  /** `a` is `b`, except that some runs of literals of `b` have become holes. */
  ghost predicate Refines(a: seq<Piece>, b: seq<Piece>)
    decreases |a|
  {
    if a == [] then b == []
    else if b != [] && a[0] == b[0] then Refines(a[1..], b[1..])
    else
      && a[0].Hole? && |a[0].text| <= |b| && b[..|a[0].text|] == Literal(a[0].text)
      && Refines(a[1..], b[|a[0].text|..])
  }

  /** Scanning joined pieces again finds every hole that was there, and perhaps new ones in the literals. */
  lemma {:induction false} ScanRefines(b: seq<Piece>)
    requires HolesMatch(b)
    ensures Refines(Scan(Concat(b)), b)
    decreases |b|
  {
    if b != [] {
      var s, rest := Concat(b), Concat(b[1..]);
      match b[0]
      case Hole(text, key) =>
        assert s[..|text|] == text && s[|text|..] == rest;
        PlaceholderNotEmpty(text, key);
        PlaceholderIsComplete(s, |text|, key);
        ScanRefines(b[1..]);
        assert Scan(s)[1..] == Scan(rest);
      case Lit(c) =>
        assert s[0] == c && s[1..] == rest;
        match Placeholder(s)
        case None =>
          ScanRefines(b[1..]);
          assert Scan(s)[1..] == Scan(rest);
        case Some((n, key)) =>
          NewHole(b, n, key);
          ScanRefines(b[n..]);
          assert Scan(s)[1..] == Scan(s[n..]);
    }
  }

  lemma OpensOnce(s: string, n: nat, key: string)
    requires Placeholder(s) == Some((n, key))
    ensures 1 < n <= |s| && forall p | 1 <= p < n :: !OpensAt(s, p)
  {
    PlaceholderIsSound(s);
    NoInnerBrace(s[..n], key);
    assert forall p | 2 <= p < n :: s[..n][p] == s[p];
  }

  /** A placeholder that starts at a literal lies over literals only. */
  lemma NewHole(b: seq<Piece>, n: nat, key: string)
    requires HolesMatch(b) && b != [] && b[0].Lit? && Placeholder(Concat(b)) == Some((n, key))
    ensures 0 < n <= |Concat(b)| && n <= |b|
    ensures b[..n] == Literal(Concat(b)[..n]) && Concat(b[n..]) == Concat(b)[n..]
  {
    var s := Concat(b);
    OpensOnce(s, n, key);
    AfterLiteral(b, n);
  }

  /** How much longer the text gets when every hole with this key shows a value of this length. */
  function Gain(ps: seq<Piece>, key: string, length: int): int {
    if ps == [] then 0
    else (if ps[0].Hole? && ps[0].key == key then length - |ps[0].text| else 0) + Gain(ps[1..], key, length)
  }

  lemma {:induction false} GainIsLength(ps: seq<Piece>, key: string, value: string)
    ensures |RenderPieces(ps, map[key := Str(value)])| == |Concat(ps)| + Gain(ps, key, |value|)
  {
    if ps != [] {
      GainIsLength(ps[1..], key, value);
    }
  }

  lemma {:induction false} LiteralsGainNothing(s: string, ps: seq<Piece>, key: string, length: int)
    ensures Gain(Literal(s) + ps, key, length) == Gain(ps, key, length)
  {
    if s == "" {
      assert Literal(s) + ps == ps;
    } else {
      LiteralsGainNothing(s[1..], ps, key, length);
      assert (Literal(s) + ps)[1..] == Literal(s[1..]) + ps;
    }
  }

  ghost predicate TextsShorter(ps: seq<Piece>, length: int) {
    forall i | 0 <= i < |ps| && ps[i].Hole? :: |ps[i].text| < length
  }

  lemma {:induction false} SourceFits(ps: seq<Piece>, i: nat)
    requires i < |ps|
    ensures |Source(ps[i])| <= |Concat(ps)|
  {
    if i > 0 {
      SourceFits(ps[1..], i - 1);
    }
  }

  lemma {:induction false} RefiningGains(a: seq<Piece>, b: seq<Piece>, key: string, length: int)
    requires Refines(a, b) && TextsShorter(a, length)
    ensures Gain(a, key, length) >= Gain(b, key, length)
    decreases |a|
  {
    if a != [] {
      if b != [] && a[0] == b[0] {
        RefiningGains(a[1..], b[1..], key, length);
      } else {
        NewHoleGains(a, b, key, length);
        RefiningGains(a[1..], b[|a[0].text|..], key, length);
      }
    }
  }

  lemma NewHoleGains(a: seq<Piece>, b: seq<Piece>, key: string, length: int)
    requires a != [] && a[0].Hole? && |a[0].text| <= |b| && b[..|a[0].text|] == Literal(a[0].text)
    ensures Gain(b, key, length) == Gain(b[|a[0].text|..], key, length)
  {
    var n := |a[0].text|;
    assert b == b[..n] + b[n..];
    LiteralsGainNothing(a[0].text, b[n..], key, length);
  }

  /** A new hole shows: some key gains more. */
  lemma {:induction false} NewHoleShows(a: seq<Piece>, b: seq<Piece>, length: int)
    requires Refines(a, b) && TextsShorter(a, length) && a != b
    ensures exists key :: Gain(a, key, length) > Gain(b, key, length)
    decreases |a|
  {
    if a != [] {
      if b != [] && a[0] == b[0] {
        assert a == [a[0]] + a[1..] && b == [b[0]] + b[1..];
        NewHoleShows(a[1..], b[1..], length);
        var key :| Gain(a[1..], key, length) > Gain(b[1..], key, length);
        assert Gain(a, key, length) > Gain(b, key, length);
      } else {
        NewHoleGains(a, b, a[0].key, length);
        RefiningGains(a[1..], b[|a[0].text|..], a[0].key, length);
        assert Gain(a, a[0].key, length) > Gain(b, a[0].key, length);
      }
    }
  }

  ghost predicate StagesAgree(content: string, first: Context, second: Context) {
    Render(Render(content, first), second) == Render(content, Union(first, second))
  }

  lemma ScanFindsPlaceholders(content: string)
    ensures HolesMatch(Scan(content)) && TextsShorter(Scan(content), |content| + 1)
  {
    var ps := Scan(content);
    ScanIsLossless(content);
    forall i | 0 <= i < |ps| && ps[i].Hole? ensures IsPlaceholder(ps[i].text, ps[i].key) && |ps[i].text| <= |content| {
      ScanIsLeftmost(content, i);
      SourceFits(ps, i);
    }
  }

  /** The two renderings differ in length when some key gains more by the second scan. */
  lemma MoreGainShows(content: string, first: Context, key: string, value: string)
    requires Gain(Scan(Render(content, first)), key, |value|) > Gain(Substitute(Scan(content), first), key, |value|)
    ensures !StagesAgree(content, first, map[key := Str(value)])
  {
    var second: Context := map[key := Str(value)];
    ScanIsLossless(Render(content, first));
    GainIsLength(Scan(Render(content, first)), key, value);
    GainIsLength(Substitute(Scan(content), first), key, value);
    SubstituteThenRender(Scan(content), first, second);
  }

  /** A placeholder that only the first rendering has brought about tells the two renderings apart. */
  lemma NewPlaceholderShows(content: string, first: Context)
    requires Scan(Render(content, first)) != Substitute(Scan(content), first)
    ensures exists second :: !StagesAgree(content, first, second)
  {
    var text, b := Render(content, first), Substitute(Scan(content), first);
    ScanFindsPlaceholders(content);
    ScanFindsPlaceholders(text);
    SubstituteKeepsHoles(Scan(content), first);
    SubstituteThenRender(Scan(content), first, first);
    ScanRefines(b);
    NewHoleShows(Scan(text), b, |text| + 1);
    var key :| Gain(Scan(text), key, |text| + 1) > Gain(b, key, |text| + 1);
    MoreGainShows(content, first, key, seq(|text| + 1, _ => 'x'));
  }

  /** Rendering in two stages agrees with rendering once, whatever the second context, exactly when the
      first stage brings about no new placeholder: scanning its result finds just the holes it left. */
  lemma StagingWorksIff(content: string, first: Context)
    ensures (forall second :: StagesAgree(content, first, second))
            <==> Scan(Render(content, first)) == Substitute(Scan(content), first)
  {
    if Scan(Render(content, first)) == Substitute(Scan(content), first) {
      forall second ensures StagesAgree(content, first, second) {
        SubstituteThenRender(Scan(content), first, second);
      }
    } else {
      NewPlaceholderShows(content, first);
    }
  }

  function Held(key: string): string {
    "{{" + key + "}}"
  }

  function InBraces(p: Piece): seq<Piece> {
    [Lit('{'), Lit('{'), p, Lit('}'), Lit('}')]
  }

  lemma NoPlaceholder(s: string)
    requires |s| < 3 || s[0] != '{' || (!IsSpace(s[2]) && !IsWord(s[2]))
    ensures Placeholder(s) == None
  {
  }

  lemma ScanLiteral(s: string, c: char, rest: string)
    requires s == [c] + rest && Placeholder(s) == None
    ensures Scan(s) == [Lit(c)] + Scan(rest)
  {
    assert s[1..] == rest;
  }

  lemma ScanHole(key: string, rest: string)
    requires AllWord(key) && key != ""
    ensures Scan(Held(key) + rest) == [Hole(Held(key), key)] + Scan(rest)
  {
    var s := Held(key) + rest;
    var n := |Held(key)|;
    assert s[..n] == Held(key) && s[n..] == rest;
    assert Spelled(Held(key), "", key, "") by {
      assert "{{" + "" + key + "" + "}}" == Held(key);
    }
    PlaceholderIsComplete(s, n, key);
  }

  lemma ScanClosing()
    ensures Scan(['}', '}']) == [Lit('}'), Lit('}')]
  {
    NoPlaceholder(['}', '}']);
    ScanLiteral(['}', '}'], '}', ['}']);
    NoPlaceholder(['}']);
    ScanLiteral(['}'], '}', []);
  }

  lemma ScanBrace(inner: string)
    requires |inner| >= 2 && inner[1] == '{'
    ensures Scan(['{'] + inner) == [Lit('{')] + Scan(inner)
  {
    var s := ['{'] + inner;
    assert s[2] == inner[1];
    NoPlaceholder(s);
    ScanLiteral(s, '{', inner);
  }

  lemma ScanOpening(inner: string)
    requires |inner| >= 2 && inner[0] == '{' && inner[1] == '{'
    ensures Scan(['{', '{'] + inner) == [Lit('{')] + ([Lit('{')] + Scan(inner))
  {
    ScanBrace(inner);
    ScanBrace(['{'] + inner);
    assert ['{', '{'] + inner == ['{'] + (['{'] + inner);
  }

  lemma ScanHeldInBraces(key: string)
    requires AllWord(key) && key != ""
    ensures Scan(Held(key) + ['}', '}']) == [Hole(Held(key), key), Lit('}'), Lit('}')]
  {
    ScanClosing();
    ScanHole(key, ['}', '}']);
  }

  lemma ScanInBraces(key: string)
    requires AllWord(key) && key != ""
    ensures Scan(['{', '{'] + (Held(key) + ['}', '}'])) == InBraces(Hole(Held(key), key))
  {
    ScanHeldInBraces(key);
    ScanOpening(Held(key) + ['}', '}']);
  }

  lemma RenderInBraces(p: Piece, ctx: Context)
    ensures RenderPieces(InBraces(p), ctx) == Held(RenderPiece(p, ctx))
  {
    var ps := InBraces(p);
    assert ps == Literal(['{', '{']) + ([p] + Literal(['}', '}']));
    assert Literal(['}', '}']) + [] == Literal(['}', '}']);
    LiteralText(['{', '{'], [p] + Literal(['}', '}']), ctx);
    LiteralText(['}', '}'], [], ctx);
    assert ([p] + Literal(['}', '}']))[1..] == Literal(['}', '}']);
  }

  lemma RenderHeld(b: string, ctx: Context)
    requires AllWord(b) && b != "" && Shown(ctx, b).Some?
    ensures Render(Held(b), ctx) == Shown(ctx, b).value
  {
    ScanHole(b, []);
    assert Held(b) + [] == Held(b);
    var ps := Scan(Held(b));
    assert ps == [Hole(Held(b), b)] && ps[1..] == [];
    assert RenderPieces(ps, ctx) == RenderPiece(ps[0], ctx) + "";
  }

  /** With braces in the literal text a value completes a placeholder for the second stage: rendering
      `{{{{a}}}}` with a = "b" and then b = "x" gives "x", with both at once `{{b}}`. */
  lemma LiteralBracesBreakStaging(a: string, b: string, x: string)
    requires AllWord(a) && a != "" && AllWord(b) && b != "" && a != b
    ensures var content := ['{', '{'] + (Held(a) + ['}', '}']);
            var first, second := map[a := Str(b)], map[b := Str(x)];
            Render(Render(content, first), second) == x && Render(content, Union(first, second)) == Held(b)
  {
    var first, second: Context := map[a := Str(b)], map[b := Str(x)];
    ScanInBraces(a);
    RenderInBraces(Hole(Held(a), a), first);
    RenderInBraces(Hole(Held(a), a), Union(first, second));
    RenderHeld(b, second);
  }
}
