/** Which requests bypass inspection: route globs compiled to regular expressions, file extensions, verdicts. */
module Ignore {
  import opened JsText
  import opened Wrappers

  const STAR: CodeUnit := 42
  const QUERY: CodeUnit := 63
  const CARET: CodeUnit := 94
  const DOT: CodeUnit := 46
  const SLASH: CodeUnit := 47
  const BACKSLASH: CodeUnit := 92

  // ---------------------------------------------------------------- a glob as regular expression source

  /** One of `\ ^ $ . | ? * + ( ) [ ] { }`. */
  predicate IsMeta(c: CodeUnit) {
    c in [92, 94, 36, 46, 124, 63, 42, 43, 40, 41, 91, 93, 123, 125]
  }

  function Piece(c: CodeUnit): JsString {
    if c == STAR then [DOT, STAR]
    else if c == QUERY then [DOT]
    else if IsMeta(c) then [BACKSLASH, c]
    else [c]
  }

  function Body(spec: JsString): JsString {
    if spec == [] then [] else Piece(spec[0]) + Body(spec[1..])
  }

  lemma {:induction false} BodyAppends(spec: JsString, c: CodeUnit)
    ensures Body(spec + [c]) == Body(spec) + Piece(c)
  {
    if spec == [] {
      assert spec + [c] == [c] && [c][1..] == [];
    } else {
      assert (spec + [c])[1..] == spec[1..] + [c];
      BodyAppends(spec[1..], c);
    }
  }

  method CompileRoute(spec: JsString) returns (out: JsString)
    ensures out == [CARET] + Body(spec)
  {
    out := [CARET];
    var k := 0;
    while k < |spec|
      invariant 0 <= k <= |spec| && out == [CARET] + Body(spec[..k])
    {
      var ch := spec[k];
      assert [CARET] + Body(spec[..k + 1]) == out + Piece(ch) by {
        assert spec[..k + 1] == spec[..k] + [ch];
        BodyAppends(spec[..k], ch);
      }
      if ch == STAR {
        out := out + [DOT, STAR];
      } else if ch == QUERY {
        out := out + [DOT];
      } else if IsMeta(ch) {
        out := out + [BACKSLASH, ch];
      } else {
        out := out + [ch];
      }
      k := k + 1;
    }
    assert spec[..k] == spec;
  }

  // ---------------------------------------------------------------- what the engine makes of the source

  /** The terms the source can have: a character, `.`, or `.*`. */
  datatype Term = Char(c: CodeUnit) | Any | AnyStar

  /** ECMA-262's SyntaxCharacter, section 22.2.1: what stands for itself only behind a backslash. */
  predicate IsSyntaxCharacter(c: CodeUnit) {
    c == 36 || 40 <= c <= 43 || c == 46 || c == 63 || 91 <= c <= 94 || 123 <= c <= 125
  }

  /** Reads source without groups, classes or other quantifiers; None for anything else. The numbers are the code
      units of `\`, `.`, `*`, `?`, `+` and `{`. */
  function ReadSource(src: JsString): Option<seq<Term>> {
    if src == [] then Some([])
    else if src[0] == 92 then
      if |src| >= 2 && IsSyntaxCharacter(src[1]) then Before(Char(src[1]), ReadSource(src[2..])) else None
    else if src[0] == 46 then
      if |src| >= 2 && src[1] == 42 then Before(AnyStar, ReadSource(src[2..])) else Before(Any, ReadSource(src[1..]))
    else if IsSyntaxCharacter(src[0]) then None
    else if |src| >= 2 && src[1] in [42, 63, 43, 123] then None
    else Before(Char(src[0]), ReadSource(src[1..]))
  }

  function Before(t: Term, rest: Option<seq<Term>>): Option<seq<Term>> {
    if rest.None? then None else Some([t] + rest.value)
  }

  predicate IsLineTerminator(c: CodeUnit) {
    c == 0x0A || c == 0x0D || c == 0x2028 || c == 0x2029
  }

  /** `^source` tested on `s`: the terms match at its start, with backtracking, whatever follows. */
  predicate Test(terms: seq<Term>, s: JsString)
    decreases |terms|, |s|
  {
    if terms == [] then true
    else
      match terms[0]
      case Char(c) => s != [] && s[0] == c && Test(terms[1..], s[1..])
      case Any => s != [] && !IsLineTerminator(s[0]) && Test(terms[1..], s[1..])
      case AnyStar => Test(terms[1..], s) || (s != [] && !IsLineTerminator(s[0]) && Test(terms, s[1..]))
  }

  // ---------------------------------------------------------------- what the glob means

  /** The first `n` characters hold no line terminator. */
  ghost predicate OneLine(s: JsString, n: int)
    requires n <= |s|
  {
    forall k :: 0 <= k < n ==> !IsLineTerminator(s[k])
  }

  /** `w` is in the glob's language: `*` (42) means any characters of one line, `?` (63) one of them, everything
      else itself. */
  ghost predicate InGlob(spec: JsString, w: JsString)
    decreases |spec|
  {
    if spec == [] then w == []
    else if spec[0] == 42 then exists n :: 0 <= n <= |w| && OneLine(w, n) && InGlob(spec[1..], w[n..])
    else if spec[0] == 63 then w != [] && !IsLineTerminator(w[0]) && InGlob(spec[1..], w[1..])
    else w != [] && w[0] == spec[0] && InGlob(spec[1..], w[1..])
  }

  function TermOf(c: CodeUnit): Term {
    if c == STAR then AnyStar else if c == QUERY then Any else Char(c)
  }

  function Terms(spec: JsString): seq<Term> {
    if spec == [] then [] else [TermOf(spec[0])] + Terms(spec[1..])
  }

  /** No piece of the source begins like a quantifier, so each is read as its own term. */
  lemma {:induction false} ReadsBody(spec: JsString)
    ensures ReadSource(Body(spec)) == Some(Terms(spec))
    ensures Body(spec) != [] ==> Body(spec)[0] !in [STAR, QUERY, 43, 123]
  {
    if spec != [] {
      ReadsBody(spec[1..]);
      var piece, rest := Piece(spec[0]), Body(spec[1..]);
      assert (piece + rest)[|piece|..] == rest;
    }
  }

  /** The part of the path the terms took. */
  lemma {:induction false} TestFindsPrefix(spec: JsString, path: JsString) returns (n: nat)
    requires Test(Terms(spec), path)
    ensures n <= |path| && InGlob(spec, path[..n])
    decreases |spec|, |path|
  {
    if spec == [] {
      n := 0;
    } else {
      assert Terms(spec)[1..] == Terms(spec[1..]);
      if spec[0] == STAR {
        if Test(Terms(spec[1..]), path) {
          n := TestFindsPrefix(spec[1..], path);
          assert OneLine(path[..n], 0) && path[..n][0..] == path[..n];
        } else {
          var m := TestFindsPrefix(spec, path[1..]);
          n := m + 1;
          StarTakesOneMore(spec, path, n);
        }
      } else {
        var m := TestFindsPrefix(spec[1..], path[1..]);
        n := m + 1;
        assert path[..n][1..] == path[1..][..m];
      }
    }
  }

  lemma StarTakesOneMore(spec: JsString, path: JsString, n: nat)
    requires spec != [] && spec[0] == STAR && 0 < n <= |path| && !IsLineTerminator(path[0])
    requires InGlob(spec, path[1..][..n - 1])
    ensures InGlob(spec, path[..n])
  {
    var w, v := path[..n], path[1..][..n - 1];
    assert w[1..] == v;
    var k :| 0 <= k <= |v| && OneLine(v, k) && InGlob(spec[1..], v[k..]);
    assert w[k + 1..] == v[k..];
    forall i | 0 <= i < k + 1 ensures !IsLineTerminator(w[i]) {
      assert i > 0 ==> w[i] == v[i - 1];
    }
    assert OneLine(w, k + 1);
  }

  lemma {:induction false} PrefixIsFound(spec: JsString, path: JsString, n: nat)
    requires n <= |path| && InGlob(spec, path[..n])
    ensures Test(Terms(spec), path)
    decreases |spec|
  {
    if spec != [] {
      assert Terms(spec)[1..] == Terms(spec[1..]);
      if spec[0] == STAR {
        var w := path[..n];
        var k :| 0 <= k <= |w| && OneLine(w, k) && InGlob(spec[1..], w[k..]);
        assert w[k..] == path[k..][..n - k];
        PrefixIsFound(spec[1..], path[k..], n - k);
        assert OneLine(path, k) by { assert forall i :: 0 <= i < k ==> path[i] == w[i]; }
        StarTakes(spec, path, k);
      } else {
        assert path[..n][1..] == path[1..][..n - 1];
        PrefixIsFound(spec[1..], path[1..], n - 1);
      }
    }
  }

  lemma {:induction false} StarTakes(spec: JsString, path: JsString, k: nat)
    requires spec != [] && spec[0] == STAR && k <= |path| && OneLine(path, k) && Test(Terms(spec[1..]), path[k..])
    ensures Test(Terms(spec), path)
    decreases k
  {
    assert Terms(spec)[1..] == Terms(spec[1..]);
    if k == 0 {
      assert path[0..] == path;
    } else {
      assert path[1..][k - 1..] == path[k..];
      StarTakes(spec, path[1..], k - 1);
    }
  }

  /** A string route takes a path. */
  predicate Accepts(spec: JsString, path: JsString) {
    var terms := ReadSource(Body(spec));
    terms.Some? && Test(terms.value, path)
  }

  /** The compiled route accepts a path exactly when some prefix of it is in the glob's language. */
  lemma AcceptsPrefixes(spec: JsString, path: JsString)
    ensures Accepts(spec, path) <==> exists n: nat :: n <= |path| && InGlob(spec, path[..n])
  {
    ReadsBody(spec);
    if Accepts(spec, path) {
      var n := TestFindsPrefix(spec, path);
    }
    if n: nat :| n <= |path| && InGlob(spec, path[..n]) {
      PrefixIsFound(spec, path, n);
    }
  }

  // ---------------------------------------------------------------- legacy prefixes

  /** skipToIgnore: a prefix becomes a route ending in `*`. */
  function RouteOfPrefix(p: JsString): JsString {
    if p != [] && p[|p| - 1] == STAR then p else p + [STAR]
  }

  predicate NoWildcard(p: JsString) {
    STAR !in p && QUERY !in p
  }

  lemma {:induction false} LiteralThenStar(p: JsString, path: JsString)
    requires NoWildcard(p)
    ensures Test(Terms(p + [STAR]), path) <==> p <= path
  {
    if p == [] {
      assert p + [STAR] == [STAR] && Terms([STAR])[1..] == [];
    } else {
      assert (p + [STAR])[1..] == p[1..] + [STAR];
      assert Terms(p + [STAR]) == [Char(p[0])] + Terms(p[1..] + [STAR]);
      if path != [] {
        LiteralThenStar(p[1..], path[1..]);
        assert p[0] == path[0] && p[1..] <= path[1..] <==> p <= path by {
          assert p == [p[0]] + p[1..] && path == [path[0]] + path[1..];
        }
      }
    }
  }

  /** Every wildcard replaced by the letter x. */
  function FillIn(p: JsString): JsString {
    seq(|p|, k requires 0 <= k < |p| => if p[k] == STAR || p[k] == QUERY then 120 else p[k])
  }

  lemma {:induction false} FilledInMatches(p: JsString, tail: JsString)
    requires tail == [] || tail == [STAR]
    ensures Test(Terms(p + tail), FillIn(p))
  {
    if p == [] {
      assert p + tail == tail;
      assert Terms([STAR])[1..] == [];
    } else {
      var s := FillIn(p);
      assert s[1..] == FillIn(p[1..]);
      assert (p + tail)[1..] == p[1..] + tail;
      var terms := Terms(p + tail);
      assert terms == [TermOf(p[0])] + Terms(p[1..] + tail);
      FilledInMatches(p[1..], tail);
      assert Test(terms[1..], s[1..]);
    }
  }

  /** The translated prefix means what it used to, for every path, exactly when it holds no wildcard. */
  lemma LegacyPrefixKept(p: JsString)
    ensures (forall path :: Accepts(RouteOfPrefix(p), path) <==> p <= path) <==> NoWildcard(p)
  {
    var route := RouteOfPrefix(p);
    ReadsBody(route);
    if NoWildcard(p) {
      forall path ensures Accepts(route, path) <==> p <= path {
        LiteralThenStar(p, path);
      }
    } else {
      var tail := if route == p then [] else [STAR];
      assert route == p + tail;
      FilledInMatches(p, tail);
      var k :| 0 <= k < |p| && (p[k] == STAR || p[k] == QUERY);
      assert FillIn(p)[k] != p[k];
      assert Accepts(route, FillIn(p)) && !(p <= FillIn(p));
    }
  }

  // ---------------------------------------------------------------- the specification of what to ignore

  /** JavaScript's toLowerCase and toUpperCase. */
  datatype Casing = Casing(lower: JsString -> JsString, upper: JsString -> JsString)

  datatype Route = Glob(spec: JsString) | Pattern(test: JsString -> bool)

  datatype IgnoreSpec = IgnoreSpec(
    extensions: seq<JsString>, routes: seq<Route>, methods: seq<JsString>, bodyLargerThan: Option<int>,
    headerEquals: seq<(JsString, set<JsString>)>, skipDefaults: bool)

  datatype Context = Context(
    method_: JsString, pathname: JsString, headers: seq<(JsString, JsString)>, contentLength: Option<int>)

  /** The sets and routes the matcher's closure looks things up in. */
  datatype Tables = Tables(
    extensions: set<JsString>, routes: seq<Route>, methods: set<JsString>, bodyLargerThan: Option<int>,
    headerEquals: seq<(JsString, set<JsString>)>)

  const DEFAULT_EXTENSIONS: set<string> := {
    "png", "jpg", "jpeg", "gif", "webp", "avif", "svg", "ico", "bmp", "tiff", "css", "js", "mjs", "map",
    "woff", "woff2", "ttf", "otf", "eot", "mp4", "webm", "ogg", "mp3", "wav", "flac", "pdf", "txt", "xml", "wasm"}

  const DEFAULT_ROUTES: seq<string> := [
    "/_next/static/*", "/_next/image*", "/_next/data/*", "/static/*", "/public/*", "/assets/*", "/favicon.ico*",
    "/robots.txt*"]

  function Units(s: string): JsString {
    seq(|s|, k requires 0 <= k < |s| => if s[k] as int < 0x1_0000 then s[k] as int else 0xFFFD)
  }

  function BuildTables(c: Casing, spec: IgnoreSpec): Tables {
    Tables(
      (if spec.skipDefaults then {} else set e | e in DEFAULT_EXTENSIONS :: Units(e))
        + set e | e in spec.extensions :: c.lower(e),
      (if spec.skipDefaults then [] else
         seq(|DEFAULT_ROUTES|, k requires 0 <= k < |DEFAULT_ROUTES| => Glob(Units(DEFAULT_ROUTES[k])))) + spec.routes,
      set m | m in spec.methods :: c.upper(m),
      spec.bodyLargerThan,
      seq(|spec.headerEquals|, k requires 0 <= k < |spec.headerEquals| =>
        (c.lower(spec.headerEquals[k].0), spec.headerEquals[k].1)))
  }

  // ---------------------------------------------------------------- the single rules

  predicate RouteTakes(r: Route, path: JsString) {
    match r
    case Glob(spec) => Accepts(spec, path)
    case Pattern(test) => test(path)
  }

  /** The path behind its last slash (47). */
  function LastSegment(path: JsString): (base: JsString)
    ensures 47 !in base
    ensures base == path || (|base| < |path| && path[|path| - |base| - 1] == 47 && path[|path| - |base|..] == base)
  {
    if path == [] || path[|path| - 1] == SLASH then []
    else
      var base := LastSegment(path[..|path| - 1]) + [path[|path| - 1]];
      assert path == path[..|path| - 1] + [path[|path| - 1]];
      base
  }

  /** `lower` ends in a dot and one of the extensions. */
  ghost predicate HasExtension(lower: JsString, extensions: set<JsString>) {
    exists i :: 0 <= i < |lower| - 1 && lower[i] == DOT && lower[i + 1..] in extensions
  }

  ghost predicate ExtensionTakes(c: Casing, extensions: set<JsString>, path: JsString) {
    LastSegment(path) != [] && HasExtension(c.lower(LastSegment(path)), extensions)
  }

  lemma {:induction false} SegmentIsLast(path: JsString, base: nat)
    requires base <= |path| && SLASH !in path[base..] && (base > 0 ==> path[base - 1] == SLASH)
    ensures LastSegment(path) == path[base..]
    decreases |path| - base
  {
    if base < |path| {
      var init := path[..|path| - 1];
      assert path[base..] == init[base..] + [path[|path| - 1]];
      SegmentIsLast(init, base);
    }
  }

  method ExtensionMatches(c: Casing, pathname: JsString, extensions: set<JsString>) returns (r: bool)
    ensures r <==> ExtensionTakes(c, extensions, pathname)
  {
    var base: nat := |pathname|;
    while base > 0 && pathname[base - 1] != SLASH
      invariant base <= |pathname| && SLASH !in pathname[base..]
    {
      assert pathname[base - 1..] == [pathname[base - 1]] + pathname[base..];
      base := base - 1;
    }
    SegmentIsLast(pathname, base);
    if base == |pathname| {
      return false;
    }
    var lower := c.lower(pathname[base..]);
    var i := 0;
    while i < |lower|
      invariant 0 <= i <= |lower|
      invariant forall j :: 0 <= j < i && j < |lower| - 1 && lower[j] == DOT ==> lower[j + 1..] !in extensions
    {
      if lower[i] == DOT && i + 1 < |lower| {
        if lower[i + 1..] in extensions {
          return true;
        }
      }
      i := i + 1;
    }
    return false;
  }

  /** The first header of that name, names compared in lower case. */
  function HeaderOf(c: Casing, headers: seq<(JsString, JsString)>, lower: JsString): (v: Option<JsString>)
    ensures v.None? ==> forall k :: 0 <= k < |headers| ==> c.lower(headers[k].0) != lower
    ensures v.Some? ==>
              exists k :: 0 <= k < |headers| && c.lower(headers[k].0) == lower && headers[k].1 == v.value &&
                          forall j :: 0 <= j < k ==> c.lower(headers[j].0) != lower
  {
    if headers == [] then None
    else if c.lower(headers[0].0) == lower then Some(headers[0].1)
    else HeaderOf(c, headers[1..], lower)
  }

  method HeaderGet(c: Casing, headers: seq<(JsString, JsString)>, name: JsString) returns (v: Option<JsString>)
    ensures v == HeaderOf(c, headers, c.lower(name))
  {
    var lower := c.lower(name);
    var k := 0;
    while k < |headers|
      invariant 0 <= k <= |headers| && HeaderOf(c, headers[k..], lower) == HeaderOf(c, headers, lower)
    {
      if c.lower(headers[k].0) == lower {
        return Some(headers[k].1);
      }
      assert headers[k..][1..] == headers[k + 1..];
      k := k + 1;
    }
    return None;
  }

  predicate HeaderTakes(c: Casing, headers: seq<(JsString, JsString)>, rule: (JsString, set<JsString>)) {
    var v := HeaderOf(c, headers, c.lower(rule.0));
    v.Some? && v.value in rule.1
  }

  // ---------------------------------------------------------------- verdicts

  datatype Verdict = SkipAll | SkipBody | Inspect

  /** How the match predicate ends, if there is one. */
  datatype Predicate = NoPredicate | Returns(verdict: Verdict) | Throws

  function Rank(v: Verdict): nat {
    match v
    case SkipAll => 0
    case SkipBody => 1
    case Inspect => 2
  }

  function MostRestrictive(a: Verdict, b: Verdict): Verdict {
    if Rank(a) >= Rank(b) then a else b
  }

  /** Some method, extension or route rule takes the request, or there are header rules and all of them do. */
  ghost predicate SkipsAll(c: Casing, t: Tables, ctx: Context) {
    || c.upper(ctx.method_) in t.methods
    || ExtensionTakes(c, t.extensions, ctx.pathname)
    || (exists k :: 0 <= k < |t.routes| && RouteTakes(t.routes[k], ctx.pathname))
    || (t.headerEquals != [] && forall k :: 0 <= k < |t.headerEquals| ==> HeaderTakes(c, ctx.headers, t.headerEquals[k]))
  }

  predicate TooLarge(t: Tables, ctx: Context) {
    && t.bodyLargerThan.Some? && t.bodyLargerThan.value >= 0
    && ctx.contentLength.Some? && ctx.contentLength.value > t.bodyLargerThan.value
  }

  /** The verdict of the declarative rules, None when none of them takes the request. */
  ghost function Declared(c: Casing, t: Tables, ctx: Context): Option<Verdict> {
    if SkipsAll(c, t, ctx) then Some(SkipAll) else if TooLarge(t, ctx) then Some(SkipBody) else None
  }

  // ---------------------------------------------------------------- the same, over the specification itself

  /** Some prefix of the path is in the glob's language, or the pattern's test succeeds. */
  ghost predicate Reaches(r: Route, path: JsString) {
    match r
    case Glob(spec) => exists n: nat :: n <= |path| && InGlob(spec, path[..n])
    case Pattern(test) => test(path)
  }

  /** The last segment of the path ends in a dot (46) and the extension, without regard to case. */
  predicate EndsIn(c: Casing, path: JsString, extension: JsString) {
    var lower := c.lower(LastSegment(path));
    LastSegment(path) != [] && extension != [] && |lower| > |extension| &&
    lower[|lower| - |extension|..] == extension && lower[|lower| - |extension| - 1] == 46
  }

  /** Paths that begin with one of these are skipped by default. */
  const STATIC_PREFIXES: seq<string> := [
    "/_next/static/", "/_next/image", "/_next/data/", "/static/", "/public/", "/assets/", "/favicon.ico", "/robots.txt"]

  ghost predicate SkippedByDefault(c: Casing, path: JsString) {
    || (exists e :: e in DEFAULT_EXTENSIONS && EndsIn(c, path, Units(e)))
    || (exists k :: 0 <= k < |STATIC_PREFIXES| && Units(STATIC_PREFIXES[k]) <= path)
  }

  /** A method, an extension or a route of the specification takes the request, or it has header rules and all of
      them do, or the defaults are on and skip it. */
  ghost predicate SkippedBy(c: Casing, spec: IgnoreSpec, ctx: Context) {
    || (exists m :: m in spec.methods && c.upper(m) == c.upper(ctx.method_))
    || (exists e :: e in spec.extensions && EndsIn(c, ctx.pathname, c.lower(e)))
    || (exists r :: r in spec.routes && Reaches(r, ctx.pathname))
    || (spec.headerEquals != [] && forall rule :: rule in spec.headerEquals ==> HeaderMatches(c, ctx.headers, rule))
    || (!spec.skipDefaults && SkippedByDefault(c, ctx.pathname))
  }

  /** The first header of the rule's name has one of its values. The rule's name is lower-cased twice, when the
      matcher is built and when the header is looked up. */
  ghost predicate HeaderMatches(c: Casing, headers: seq<(JsString, JsString)>, rule: (JsString, set<JsString>)) {
    exists k :: 0 <= k < |headers| && c.lower(headers[k].0) == c.lower(c.lower(rule.0)) && headers[k].1 in rule.1 &&
                forall j :: 0 <= j < k ==> c.lower(headers[j].0) != c.lower(c.lower(rule.0))
  }

  /** The request announces more bytes than the cutoff. */
  predicate CutOffBy(spec: IgnoreSpec, ctx: Context) {
    && spec.bodyLargerThan.Some? && spec.bodyLargerThan.value >= 0
    && ctx.contentLength.Some? && ctx.contentLength.value > spec.bodyLargerThan.value
  }

  lemma ExtensionMeans(c: Casing, extensions: set<JsString>, path: JsString)
    ensures ExtensionTakes(c, extensions, path) <==> exists e :: e in extensions && EndsIn(c, path, e)
  {
    var lower := c.lower(LastSegment(path));
    if ExtensionTakes(c, extensions, path) {
      var i :| 0 <= i < |lower| - 1 && lower[i] == DOT && lower[i + 1..] in extensions;
      assert EndsIn(c, path, lower[i + 1..]);
    }
    if e :| e in extensions && EndsIn(c, path, e) {
      var i := |lower| - |e| - 1;
      assert lower[i] == DOT && lower[i + 1..] == e;
    }
  }

  lemma UnitsEnd(s: string)
    ensures Units(s + "*") == Units(s) + [42]
  {
  }

  lemma PrefixesHaveNoWildcard(k: nat)
    requires k < |STATIC_PREFIXES|
    ensures '*' !in STATIC_PREFIXES[k] && '?' !in STATIC_PREFIXES[k]
    ensures |DEFAULT_ROUTES| == |STATIC_PREFIXES| && DEFAULT_ROUTES[k] == STATIC_PREFIXES[k] + "*"
  {
  }

  lemma DefaultRouteMeans(k: nat, path: JsString)
    requires k < |STATIC_PREFIXES|
    ensures |DEFAULT_ROUTES| == |STATIC_PREFIXES|
    ensures Accepts(Units(DEFAULT_ROUTES[k]), path) <==> Units(STATIC_PREFIXES[k]) <= path
  {
    var p := Units(STATIC_PREFIXES[k]);
    PrefixesHaveNoWildcard(k);
    UnitsEnd(STATIC_PREFIXES[k]);
    assert NoWildcard(p);
    assert RouteOfPrefix(p) == p + [STAR];
    LegacyPrefixKept(p);
  }

  lemma RouteMeans(r: Route, path: JsString)
    ensures RouteTakes(r, path) <==> Reaches(r, path)
  {
    if r.Glob? {
      AcceptsPrefixes(r.spec, path);
    }
  }

  lemma HeaderMeans(c: Casing, headers: seq<(JsString, JsString)>, rule: (JsString, set<JsString>))
    ensures HeaderTakes(c, headers, (c.lower(rule.0), rule.1)) <==> HeaderMatches(c, headers, rule)
  {
    var v := HeaderOf(c, headers, c.lower(c.lower(rule.0)));
  }

  lemma MethodsMean(c: Casing, spec: IgnoreSpec, ctx: Context)
    ensures c.upper(ctx.method_) in BuildTables(c, spec).methods
            <==> exists m :: m in spec.methods && c.upper(m) == c.upper(ctx.method_)
  {
  }

  lemma ExtensionsMean(c: Casing, spec: IgnoreSpec, path: JsString)
    ensures ExtensionTakes(c, BuildTables(c, spec).extensions, path)
            <==> || (exists e :: e in spec.extensions && EndsIn(c, path, c.lower(e)))
                 || (!spec.skipDefaults && exists e :: e in DEFAULT_EXTENSIONS && EndsIn(c, path, Units(e)))
  {
    var all := BuildTables(c, spec).extensions;
    ExtensionMeans(c, all, path);
    hide EndsIn, Units, ExtensionTakes;
    if e :| e in spec.extensions && EndsIn(c, path, c.lower(e)) {
      assert c.lower(e) in all;
    }
    if e :| !spec.skipDefaults && e in DEFAULT_EXTENSIONS && EndsIn(c, path, Units(e)) {
      assert Units(e) in all;
    }
  }

  lemma RoutesMean(c: Casing, spec: IgnoreSpec, path: JsString)
    ensures var routes := BuildTables(c, spec).routes;
            (exists k :: 0 <= k < |routes| && RouteTakes(routes[k], path))
            <==> || (exists r :: r in spec.routes && Reaches(r, path))
                 || (!spec.skipDefaults && exists k :: 0 <= k < |STATIC_PREFIXES| && Units(STATIC_PREFIXES[k]) <= path)
  {
    var routes := BuildTables(c, spec).routes;
    var n := if spec.skipDefaults then 0 else |DEFAULT_ROUTES|;
    assert |routes| == n + |spec.routes| && forall k :: n <= k < |routes| ==> routes[k] == spec.routes[k - n];
    assert forall k :: 0 <= k < n ==> routes[k] == Glob(Units(DEFAULT_ROUTES[k]));
    PrefixesHaveNoWildcard(0);
    hide BuildTables, Accepts, Units;
    forall k | 0 <= k < n ensures RouteTakes(routes[k], path) <==> Units(STATIC_PREFIXES[k]) <= path {
      DefaultRouteMeans(k, path);
    }
    hide RouteTakes, Reaches;
    forall r: Route ensures RouteTakes(r, path) <==> Reaches(r, path) {
      RouteMeans(r, path);
    }
    if r :| r in spec.routes && Reaches(r, path) {
      var k :| 0 <= k < |spec.routes| && spec.routes[k] == r;
      assert routes[n + k] == r;
    }
    if k :| 0 <= k < n && Units(STATIC_PREFIXES[k]) <= path {
      assert RouteTakes(routes[k], path);
    }
  }

  lemma HeadersMean(c: Casing, spec: IgnoreSpec, headers: seq<(JsString, JsString)>)
    ensures var rules := BuildTables(c, spec).headerEquals;
            && (rules == [] <==> spec.headerEquals == [])
            && ((forall k :: 0 <= k < |rules| ==> HeaderTakes(c, headers, rules[k]))
                <==> forall rule :: rule in spec.headerEquals ==> HeaderMatches(c, headers, rule))
  {
    var rules := BuildTables(c, spec).headerEquals;
    forall k | 0 <= k < |rules| ensures HeaderTakes(c, headers, rules[k]) <==> HeaderMatches(c, headers, spec.headerEquals[k]) {
      HeaderMeans(c, headers, spec.headerEquals[k]);
    }
    hide HeaderTakes, HeaderMatches;
    forall k | 0 <= k < |rules| ensures spec.headerEquals[k] in spec.headerEquals {
    }
  }

  /** The tables the matcher looks things up in mean what the specification says. */
  lemma DeclaredMeans(c: Casing, spec: IgnoreSpec, ctx: Context)
    ensures Declared(c, BuildTables(c, spec), ctx) ==
              if SkippedBy(c, spec, ctx) then Some(SkipAll) else if CutOffBy(spec, ctx) then Some(SkipBody) else None
  {
    MethodsMean(c, spec, ctx);
    ExtensionsMean(c, spec, ctx.pathname);
    RoutesMean(c, spec, ctx.pathname);
    HeadersMean(c, spec, ctx.headers);
    hide EndsIn, Units, ExtensionTakes, RouteTakes, Reaches, HeaderTakes, HeaderMatches;
    assert BuildTables(c, spec).bodyLargerThan == spec.bodyLargerThan;
    hide BuildTables;
  }

  method AnyRouteTakes(routes: seq<Route>, path: JsString) returns (r: bool)
    ensures r <==> exists k :: 0 <= k < |routes| && RouteTakes(routes[k], path)
  {
    var k := 0;
    while k < |routes|
      invariant 0 <= k <= |routes| && forall j :: 0 <= j < k ==> !RouteTakes(routes[j], path)
    {
      if RouteTakes(routes[k], path) {
        return true;
      }
      k := k + 1;
    }
    return false;
  }

  method AllHeadersTake(c: Casing, headers: seq<(JsString, JsString)>, rules: seq<(JsString, set<JsString>)>)
    returns (r: bool)
    ensures r <==> forall k :: 0 <= k < |rules| ==> HeaderTakes(c, headers, rules[k])
  {
    var k := 0;
    while k < |rules|
      invariant 0 <= k <= |rules| && forall j :: 0 <= j < k ==> HeaderTakes(c, headers, rules[j])
    {
      var v := HeaderGet(c, headers, rules[k].0);
      if v.None? || v.value !in rules[k].1 {
        return false;
      }
      k := k + 1;
    }
    return true;
  }

  method DeclaredVerdict(c: Casing, t: Tables, ctx: Context) returns (declarative: Option<Verdict>)
    ensures declarative == Declared(c, t, ctx)
  {
    declarative := None;
    var byExtension := ExtensionMatches(c, ctx.pathname, t.extensions);
    var byRoute := AnyRouteTakes(t.routes, ctx.pathname);
    if t.methods != {} && c.upper(ctx.method_) in t.methods {
      declarative := Some(SkipAll);
    } else if t.extensions != {} && byExtension {
      declarative := Some(SkipAll);
    } else if byRoute {
      declarative := Some(SkipAll);
    }
    if declarative != Some(SkipAll) && TooLarge(t, ctx) {
      declarative := Some(SkipBody);
    }
    if declarative != Some(SkipAll) && t.headerEquals != [] {
      var allMatch := AllHeadersTake(c, ctx.headers, t.headerEquals);
      if allMatch {
        declarative := Some(SkipAll);
      }
    }
    assert t.extensions == {} ==> !ExtensionTakes(c, t.extensions, ctx.pathname);
  }

  /** The matcher's verdict on a request. */
  method Matcher(c: Casing, spec: IgnoreSpec, ctx: Context, p: Predicate) returns (v: Verdict)
    ensures p.Throws? || p == Returns(Inspect) ==> v == Inspect
    ensures p.NoPredicate? ==>
              v == if SkippedBy(c, spec, ctx) then SkipAll else if CutOffBy(spec, ctx) then SkipBody else Inspect
    ensures p == Returns(SkipBody) ==> v == SkipBody
    ensures p == Returns(SkipAll) ==> v == if !SkippedBy(c, spec, ctx) && CutOffBy(spec, ctx) then SkipBody else SkipAll
  {
    DeclaredMeans(c, spec, ctx);
    var declarative := DeclaredVerdict(c, BuildTables(c, spec), ctx);
    match p
    case NoPredicate => return OrElse(declarative, Inspect);
    case Throws => return Inspect;
    case Returns(imperative) =>
      return if declarative.None? then imperative else MostRestrictive(declarative.value, imperative);
  }

  // ---------------------------------------------------------------- the legacy predicate

  /** skipToIgnore, for options that list prefixes only. */
  function SpecOfPrefixes(prefixes: seq<JsString>): IgnoreSpec {
    IgnoreSpec([], seq(|prefixes|, k requires 0 <= k < |prefixes| => Glob(RouteOfPrefix(prefixes[k]))), [], None, [], true)
  }

  /** The context the legacy predicate makes of a path. */
  function PathContext(get: JsString, path: JsString): Context {
    Context(get, path, [], None)
  }

  /** With the defaults off, a list of prefixes without wildcards skips exactly the paths that start with one of
      them. */
  lemma LegacyListKept(c: Casing, prefixes: seq<JsString>, get: JsString, path: JsString)
    requires forall k :: 0 <= k < |prefixes| ==> NoWildcard(prefixes[k])
    ensures Declared(c, BuildTables(c, SpecOfPrefixes(prefixes)), PathContext(get, path)) == Some(SkipAll)
            <==> exists k :: 0 <= k < |prefixes| && prefixes[k] <= path
  {
    var t := BuildTables(c, SpecOfPrefixes(prefixes));
    assert t.routes == SpecOfPrefixes(prefixes).routes && t.methods == {} && t.extensions == {} && t.headerEquals == [];
    forall k | 0 <= k < |prefixes| ensures RouteTakes(t.routes[k], path) <==> prefixes[k] <= path {
      LegacyPrefixKept(prefixes[k]);
    }
  }
}
