/** Regular expressions as Go's regexp/syntax parser leaves them, and what text they match. */
module Regex {
  import opened Bytes
  import opened Utf8

  /** One node of the syntax tree; `foldCase` is the node's (?i) flag. */
  datatype Regexp = Regexp(op: Op, foldCase: bool)

  datatype Op =
    | NoMatch
    | EmptyMatch
    | Literal(runes: seq<int>)
    | CharClass(ranges: seq<(int, int)>)
    | AnyCharNotNL
    | AnyChar
    | BeginLine
    | EndLine
    | BeginText
    | EndText
    | WordBoundary
    | NoWordBoundary
    | Capture(sub: Regexp)
    | Star(sub: Regexp)
    | Plus(sub: Regexp)
    | Quest(sub: Regexp)
    | Repeat(sub: Regexp, min: nat, max: int)  // max < 0: no upper bound
    | Concat(subs: seq<Regexp>)
    | Alternate(subs: seq<Regexp>)

  /** The Unicode case tables: `orbit(r)` is the smallest rune that case-folds together with `r`. */
  datatype CaseTable = CaseTable(orbit: int -> int, lower: int -> int) {
    /** What this model needs of them. Of an ASCII letter's orbit the capital is the smallest rune. */
    ghost predicate Valid() {
      && (forall r: int :: orbit(r) <= r)
      && (forall r: int :: 'a' as int <= r <= 'z' as int ==> orbit(r) == r - 32)
      && (forall r: int :: 0 <= r < 128 && !('a' as int <= r <= 'z' as int) ==> orbit(r) == r)
      && (forall r: byte :: r < 128 ==> lower(r) == AsciiLowerByte(r))
      && orbit(RUNE_ERROR) == RUNE_ERROR
    }
  }

  predicate SameRune(u: CaseTable, fold: bool, pattern: int, input: int) {
    if fold then u.orbit(pattern) == u.orbit(input) else pattern == input
  }

  predicate InClass(ranges: seq<(int, int)>, r: int) {
    exists k :: 0 <= k < |ranges| && ranges[k].0 <= r <= ranges[k].1
  }

  predicate IsWordByte(s: Bytes, i: int) {
    0 <= i < |s| &&
    ('a' as int <= s[i] <= 'z' as int || 'A' as int <= s[i] <= 'Z' as int ||
     '0' as int <= s[i] <= '9' as int || s[i] == '_' as int)
  }

  predicate AtWordBoundary(s: Bytes, i: int) {
    IsWordByte(s, i - 1) != IsWordByte(s, i)
  }

  /** `runes` match `s[i..j]` one decoded rune at a time. */
  ghost predicate MatchRunes(u: CaseTable, runes: seq<int>, fold: bool, s: Bytes, i: int, j: int)
    requires 0 <= i <= j <= |s|
  {
    if runes == [] then i == j
    else
      i < |s| &&
      var (r, n) := Decode(s[i..]);
      SameRune(u, fold, runes[0], r) && i + n <= j && MatchRunes(u, runes[1..], fold, s, i + n, j)
  }

  /** One rune accepted by `ok`, taking exactly `s[i..j]`. */
  ghost predicate MatchOne(ok: int -> bool, s: Bytes, i: int, j: int)
    requires 0 <= i <= j <= |s|
  {
    i < |s| && Decode(s[i..]).1 == j - i && ok(Decode(s[i..]).0)
  }

  /** `re` matches exactly `s[i..j]`, its assertions looking at the whole of `s`. */
  ghost predicate Match(u: CaseTable, re: Regexp, s: Bytes, i: int, j: int)
    requires 0 <= i <= j <= |s|
    decreases re, 0, 0
  {
    match re.op
    case NoMatch => false
    case EmptyMatch => i == j
    case Literal(runes) => MatchRunes(u, runes, re.foldCase, s, i, j)
    case CharClass(ranges) => MatchOne(r => InClass(ranges, r), s, i, j)
    case AnyCharNotNL => MatchOne(r => r != '\n' as int, s, i, j)
    case AnyChar => MatchOne(r => true, s, i, j)
    case BeginLine => i == j && (i == 0 || s[i - 1] == '\n' as int)
    case EndLine => i == j && (i == |s| || s[i] == '\n' as int)
    case BeginText => i == j == 0
    case EndText => i == j == |s|
    case WordBoundary => i == j && AtWordBoundary(s, i)
    case NoWordBoundary => i == j && !AtWordBoundary(s, i)
    case Capture(sub) => Match(u, sub, s, i, j)
    case Star(sub) => exists n: nat :: MatchTimes(u, sub, n, s, i, j)
    case Plus(sub) => exists n: nat :: n >= 1 && MatchTimes(u, sub, n, s, i, j)
    case Quest(sub) => i == j || Match(u, sub, s, i, j)
    case Repeat(sub, min, max) =>
      exists n: nat :: min <= n && (0 <= max ==> n <= max) && MatchTimes(u, sub, n, s, i, j)
    case Concat(subs) => MatchAll(u, subs, s, i, j)
    case Alternate(subs) => exists k :: 0 <= k < |subs| && Match(u, subs[k], s, i, j)
  }

  /** `subs` match consecutive pieces of `s[i..j]`. */
  ghost predicate MatchAll(u: CaseTable, subs: seq<Regexp>, s: Bytes, i: int, j: int)
    requires 0 <= i <= j <= |s|
    decreases subs, 0, 0
  {
    if subs == [] then i == j
    else exists m :: i <= m <= j && Match(u, subs[0], s, i, m) && MatchAll(u, subs[1..], s, m, j)
  }

  /** `sub` matches `n` consecutive pieces of `s[i..j]`. */
  ghost predicate MatchTimes(u: CaseTable, sub: Regexp, n: nat, s: Bytes, i: int, j: int)
    requires 0 <= i <= j <= |s|
    decreases sub, 1, n
  {
    if n == 0 then i == j
    else exists m :: i <= m <= j && Match(u, sub, s, i, m) && MatchTimes(u, sub, n - 1, s, m, j)
  }

  /** The engine's answer: `re` matches somewhere in `s`. */
  ghost predicate Matches(u: CaseTable, re: Regexp, s: Bytes) {
    exists i, j :: 0 <= i <= j <= |s| && Match(u, re, s, i, j)
  }

  /** Some node of the tree carries the (?i) flag. */
  predicate HasFold(re: Regexp)
    decreases re
  {
    re.foldCase ||
    match re.op
    case Capture(sub) => HasFold(sub)
    case Star(sub) => HasFold(sub)
    case Plus(sub) => HasFold(sub)
    case Quest(sub) => HasFold(sub)
    case Repeat(sub, _, _) => HasFold(sub)
    case Concat(subs) => exists k :: 0 <= k < |subs| && HasFold(subs[k])
    case Alternate(subs) => exists k :: 0 <= k < |subs| && HasFold(subs[k])
    case _ => false
  }

  /** The parser's normal form: a case-folding literal stores the smallest rune of each orbit. */
  ghost predicate FoldNormal(u: CaseTable, re: Regexp)
    decreases re
  {
    match re.op
    case Literal(runes) => re.foldCase ==> forall k :: 0 <= k < |runes| ==> u.orbit(runes[k]) == runes[k]
    case Capture(sub) => FoldNormal(u, sub)
    case Star(sub) => FoldNormal(u, sub)
    case Plus(sub) => FoldNormal(u, sub)
    case Quest(sub) => FoldNormal(u, sub)
    case Repeat(sub, _, _) => FoldNormal(u, sub)
    case Concat(subs) => forall k :: 0 <= k < |subs| ==> FoldNormal(u, subs[k])
    case Alternate(subs) => forall k :: 0 <= k < |subs| ==> FoldNormal(u, subs[k])
    case _ => true
  }

  // ---------------------------------------------------------------- cutting a match into pieces

  lemma FirstRune(u: CaseTable, runes: seq<int>, fold: bool, s: Bytes, i: int, j: int) returns (m: int)
    requires 0 <= i <= j <= |s| && MatchRunes(u, runes, fold, s, i, j) && runes != []
    ensures i < |s| && m == i + Decode(s[i..]).1 && i <= m <= j
    ensures SameRune(u, fold, runes[0], Decode(s[i..]).0) && MatchRunes(u, runes[1..], fold, s, m, j)
  {
    m := i + Decode(s[i..]).1;
  }

  lemma FirstPiece(u: CaseTable, sub: Regexp, n: nat, s: Bytes, i: int, j: int) returns (m: int)
    requires 0 <= i <= j <= |s| && n >= 1 && MatchTimes(u, sub, n, s, i, j)
    ensures i <= m <= j && Match(u, sub, s, i, m) && MatchTimes(u, sub, n - 1, s, m, j)
  {
    m :| i <= m <= j && Match(u, sub, s, i, m) && MatchTimes(u, sub, n - 1, s, m, j);
  }

  /** A repetition can equally be cut before its last piece. */
  lemma {:induction false} LastPiece(u: CaseTable, sub: Regexp, n: nat, s: Bytes, i: int, j: int) returns (m: int)
    requires 0 <= i <= j <= |s| && n >= 1 && MatchTimes(u, sub, n, s, i, j)
    ensures i <= m <= j && MatchTimes(u, sub, n - 1, s, i, m) && Match(u, sub, s, m, j)
  {
    var a := FirstPiece(u, sub, n, s, i, j);
    if n == 1 {
      m := i;
    } else {
      m := LastPiece(u, sub, n - 1, s, a, j);
    }
  }

  /** A repetition taken at least once starts with one match of its body and ends with another. */
  lemma RepeatedPieces(u: CaseTable, re: Regexp, s: Bytes, i: int, j: int) returns (a: int, b: int)
    requires re.op.Plus? || (re.op.Repeat? && re.op.min >= 1)
    requires 0 <= i <= j <= |s| && Match(u, re, s, i, j)
    ensures i <= a <= j && Match(u, re.op.sub, s, i, a)
    ensures i <= b <= j && Match(u, re.op.sub, s, b, j)
  {
    var n: nat :| n >= 1 && MatchTimes(u, re.op.sub, n, s, i, j);
    a := FirstPiece(u, re.op.sub, n, s, i, j);
    b := LastPiece(u, re.op.sub, n, s, i, j);
  }

  lemma FirstChild(u: CaseTable, subs: seq<Regexp>, s: Bytes, i: int, j: int) returns (m: int)
    requires 0 <= i <= j <= |s| && MatchAll(u, subs, s, i, j) && subs != []
    ensures i <= m <= j && Match(u, subs[0], s, i, m) && MatchAll(u, subs[1..], s, m, j)
  {
    m :| i <= m <= j && Match(u, subs[0], s, i, m) && MatchAll(u, subs[1..], s, m, j);
  }

  lemma TwoChildren(u: CaseTable, subs: seq<Regexp>, s: Bytes, i: int, j: int) returns (m: int)
    requires 0 <= i <= j <= |s| && MatchAll(u, subs, s, i, j) && |subs| == 2
    ensures i <= m <= j && Match(u, subs[0], s, i, m) && Match(u, subs[1], s, m, j)
  {
    m := FirstChild(u, subs, s, i, j);
    var m' := FirstChild(u, subs[1..], s, m, j);
  }

  /** A concatenation can equally be cut before its last child. */
  lemma {:induction false} LastChild(u: CaseTable, subs: seq<Regexp>, s: Bytes, i: int, j: int) returns (m: int)
    requires 0 <= i <= j <= |s| && MatchAll(u, subs, s, i, j) && subs != []
    ensures i <= m <= j
    ensures MatchAll(u, subs[..|subs| - 1], s, i, m) && Match(u, subs[|subs| - 1], s, m, j)
    decreases subs
  {
    var n := |subs| - 1;
    var a := FirstChild(u, subs, s, i, j);
    if n == 0 {
      m := i;
    } else {
      m := LastChild(u, subs[1..], s, a, j);
      assert subs[1..][..n - 1] == subs[..n][1..];
    }
  }

  // ---------------------------------------------------------------- minimum length

  /** The byte length every match must have at least. */
  function MinLen(re: Regexp): int
    decreases re, 0
  {
    match re.op
    case Literal(runes) => RunesLen(runes)
    case AnyCharNotNL => 1
    case AnyChar => 1
    case CharClass(_) => 1
    case Capture(sub) => MinLen(sub)
    case Concat(subs) => SumMinLen(subs)
    case Alternate(subs) => if subs == [] then 0 else LeastMinLen(subs)
    case Plus(sub) => MinLen(sub)
    case Repeat(sub, min, _) => if min == 0 then 0 else min * MinLen(sub)
    case _ => 0
  }

  /** U+FFFD counts one byte: it also matches a single invalid byte. */
  function RunesLen(runes: seq<int>): int {
    if runes == [] then 0
    else (if runes[0] == RUNE_ERROR then 1 else RuneLen(runes[0])) + RunesLen(runes[1..])
  }

  function SumMinLen(subs: seq<Regexp>): int
    decreases subs, 1
  {
    if subs == [] then 0 else MinLen(subs[0]) + SumMinLen(subs[1..])
  }

  function LeastMinLen(subs: seq<Regexp>): int
    requires subs != []
    decreases subs, 1
  {
    if |subs| == 1 then MinLen(subs[0])
    else
      var v := LeastMinLen(subs[..|subs| - 1]);
      var w := MinLen(subs[|subs| - 1]);
      if w < v then w else v
  }

  lemma {:induction false} LeastIsLeast(subs: seq<Regexp>, k: int)
    requires 0 <= k < |subs|
    ensures LeastMinLen(subs) <= MinLen(subs[k])
  {
    if k < |subs| - 1 {
      LeastIsLeast(subs[..|subs| - 1], k);
    }
  }

  lemma {:induction false} RunesLenIsLeast(u: CaseTable, runes: seq<int>, fold: bool, s: Bytes, i: int, j: int)
    requires u.Valid() && 0 <= i <= j <= |s|
    requires fold ==> forall k :: 0 <= k < |runes| ==> u.orbit(runes[k]) == runes[k]
    requires MatchRunes(u, runes, fold, s, i, j)
    ensures RunesLen(runes) <= j - i
  {
    if runes != [] {
      var (r, n) := Decode(s[i..]);
      DecodedIsEncoded(s[i..]);
      RunesLenIsLeast(u, runes[1..], fold, s, i + n, j);
    }
  }

  /** No match of `re` is shorter than MinLen(re). */
  lemma {:induction false} MinLenIsLowerBound(u: CaseTable, re: Regexp, s: Bytes, i: int, j: int)
    requires u.Valid() && FoldNormal(u, re)
    requires 0 <= i <= j <= |s| && Match(u, re, s, i, j)
    ensures MinLen(re) <= j - i
    decreases re, 0, 0
  {
    hide MatchTimes, MatchRunes, MatchAll, RunesLen, SumMinLen, LeastMinLen;
    match re.op
    case Literal(runes) => RunesLenIsLeast(u, runes, re.foldCase, s, i, j);
    case Capture(sub) => MinLenIsLowerBound(u, sub, s, i, j);
    case Concat(subs) => SumIsLowerBound(u, subs, s, i, j);
    case Alternate(subs) => LeastIsLowerBound(u, subs, s, i, j);
    case Plus(sub) => ProductIsLowerBound(u, sub, 1, s, i, j);
    case Repeat(sub, min, max) => ProductIsLowerBound(u, sub, min, s, i, j);
    case _ =>
  }

  lemma {:induction false} LeastIsLowerBound(u: CaseTable, subs: seq<Regexp>, s: Bytes, i: int, j: int)
    requires u.Valid() && forall k :: 0 <= k < |subs| ==> FoldNormal(u, subs[k])
    requires 0 <= i <= j <= |s| && exists k :: 0 <= k < |subs| && Match(u, subs[k], s, i, j)
    ensures LeastMinLen(subs) <= j - i
    decreases subs, 0, 0
  {
    hide Match, MinLen, LeastMinLen;
    var k :| 0 <= k < |subs| && Match(u, subs[k], s, i, j);
    MinLenIsLowerBound(u, subs[k], s, i, j);
    LeastIsLeast(subs, k);
  }

  lemma {:induction false} ProductIsLowerBound(u: CaseTable, sub: Regexp, least: nat, s: Bytes, i: int, j: int)
    requires u.Valid() && FoldNormal(u, sub)
    requires 0 <= i <= j <= |s| && exists n: nat :: least <= n && MatchTimes(u, sub, n, s, i, j)
    ensures least * MinLen(sub) <= j - i
    decreases sub, 2, 0
  {
    hide Match, MatchTimes, MinLen;
    var n: nat :| least <= n && MatchTimes(u, sub, n, s, i, j);
    TimesIsLowerBound(u, sub, n, least, s, i, j);
  }

  lemma {:induction false} SumIsLowerBound(u: CaseTable, subs: seq<Regexp>, s: Bytes, i: int, j: int)
    requires u.Valid() && forall k :: 0 <= k < |subs| ==> FoldNormal(u, subs[k])
    requires 0 <= i <= j <= |s| && MatchAll(u, subs, s, i, j)
    ensures SumMinLen(subs) <= j - i
    decreases subs, 0, 0
  {
    if subs != [] {
      var m :| i <= m <= j && Match(u, subs[0], s, i, m) && MatchAll(u, subs[1..], s, m, j);
      MinLenIsLowerBound(u, subs[0], s, i, m);
      SumIsLowerBound(u, subs[1..], s, m, j);
    }
  }

  /** `n` repetitions span at least `least * MinLen(sub)` bytes for every `least <= n`. */
  lemma {:induction false} TimesIsLowerBound(u: CaseTable, sub: Regexp, n: nat, least: nat, s: Bytes, i: int, j: int)
    requires u.Valid() && FoldNormal(u, sub) && least <= n
    requires 0 <= i <= j <= |s| && MatchTimes(u, sub, n, s, i, j)
    ensures least * MinLen(sub) <= j - i
    decreases sub, 1, n
  {
    if least == 0 {
    } else {
      var m :| i <= m <= j && Match(u, sub, s, i, m) && MatchTimes(u, sub, n - 1, s, m, j);
      MinLenIsLowerBound(u, sub, s, i, m);
      TimesIsLowerBound(u, sub, n - 1, least - 1, s, m, j);
      assert least * MinLen(sub) == MinLen(sub) + (least - 1) * MinLen(sub);
    }
  }
}
