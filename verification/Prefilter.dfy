/** The prefilter built from a regex: a cheap test that decides whether the engine runs at all. */
module Prefilter {
  import opened Bytes
  import opened Regex
  import opened Literals
  import opened LiteralsSound
  import opened Wrappers

  /** The test closures the builder composes, as data. */
  datatype Plan =
    | AtLeast(least: int)                                         // long enough
    | Needles(ci: bool, prefix: Bytes, suffix: Bytes, middle: seq<Bytes>) // anchored needles, then the rest
    | OneOf(ci: bool, needles: seq<Bytes>)                        // at least one needle
    | Both(first: Plan, second: Plan)
    | AsciiOnly(inner: Plan)                                      // non-ASCII input always passes

  const MIN_USEFUL_LENGTH := 4
  const MAX_NEEDLES := 256

  // ---------------------------------------------------------------- what the closures answer

  /** Substring search; in folding mode a needle with non-ASCII bytes is not looked for. */
  ghost predicate Contains(ci: bool, s: Bytes, needle: Bytes) {
    if !ci then Occurs(needle, s)
    else needle == [] || (|needle| <= |s| && (IsAscii(needle) ==> Occurs(needle, AsciiLower(s))))
  }

  predicate HasPrefix(ci: bool, s: Bytes, prefix: Bytes) {
    At(prefix, Norm(ci, s), 0)
  }

  predicate HasSuffix(ci: bool, s: Bytes, suffix: Bytes) {
    At(suffix, Norm(ci, s), |s| - |suffix|)
  }

  ghost predicate Accepts(plan: Plan, s: Bytes) {
    match plan
    case AtLeast(least) => |s| >= least
    case Needles(ci, prefix, suffix, middle) =>
      && (prefix != [] ==> HasPrefix(ci, s, prefix))
      && (suffix != [] ==> HasSuffix(ci, s, suffix))
      && forall k :: 0 <= k < |middle| ==> Contains(ci, s, middle[k])
    case OneOf(ci, needles) =>
      if |needles| == 1 then Contains(ci, s, needles[0])
      else exists k :: 0 <= k < |needles| && Occurs(Norm(ci, needles[k]), Norm(ci, s))
    case Both(first, second) => Accepts(first, s) && Accepts(second, s)
    case AsciiOnly(inner) => !IsAscii(s) || Accepts(inner, s)
  }

  // ---------------------------------------------------------------- building

  /** The match can only start at offset 0. */
  predicate HasBeginAnchor(re: Regexp)
    decreases re
  {
    match re.op
    case BeginText => true
    case Capture(sub) => HasBeginAnchor(sub)
    case Concat(subs) => subs != [] && HasBeginAnchor(subs[0])
    case _ => false
  }

  /** The match can only end at the end of the input. */
  predicate HasEndAnchor(re: Regexp)
    decreases re
  {
    match re.op
    case EndText => true
    case Capture(sub) => HasEndAnchor(sub)
    case Concat(subs) => subs != [] && HasEndAnchor(subs[|subs| - 1])
    case _ => false
  }

  /** The strings of at least `least` bytes, in order. */
  function FilterShort(ss: seq<Bytes>, least: nat): seq<Bytes> {
    if ss == [] then []
    else
      var rest := FilterShort(ss[..|ss| - 1], least);
      if |ss[|ss| - 1]| >= least then rest + [ss[|ss| - 1]] else rest
  }

  /** Longest first. */
  function SortLongest(ss: seq<Bytes>): seq<Bytes> {
    if ss == [] then [] else Insert(ss[0], SortLongest(ss[1..]))
  }

  function Insert(w: Bytes, ss: seq<Bytes>): seq<Bytes> {
    if ss == [] || |w| >= |ss[0]| then [w] + ss else [ss[0]] + Insert(w, ss[1..])
  }

  function BuildMultiNeedle(needles: seq<Bytes>, ci: bool, usePrefix: bool, useSuffix: bool): Option<Plan> {
    var n := |needles|;
    if n == 0 then None
    else if usePrefix && useSuffix && n >= 2 then Some(Needles(ci, needles[0], needles[n - 1], needles[1..n - 1]))
    else if usePrefix && useSuffix then Some(Needles(ci, needles[0], [], []))
    else if usePrefix then Some(Needles(ci, needles[0], [], needles[1..]))
    else if useSuffix then Some(Needles(ci, [], needles[n - 1], needles[..n - 1]))
    else Some(Needles(ci, [], [], needles))
  }

  predicate UsesPrefix(re: Regexp, all: seq<Bytes>) {
    HasBeginAnchor(re) && all != [] && |all[0]| >= 2
  }

  predicate UsesSuffix(re: Regexp, all: seq<Bytes>) {
    HasEndAnchor(re) && all != [] && |all[|all| - 1]| >= 2
  }

  /** The all-of part; None when no needle is long enough. */
  function BuildAll(re: Regexp, all: seq<Bytes>, ci: bool): Option<Plan> {
    var filtered := FilterShort(all, 2);
    if filtered == [] then None
    else
      var usePrefix := UsesPrefix(re, all);
      var useSuffix := UsesSuffix(re, all);
      var needles := if !usePrefix && !useSuffix then SortLongest(filtered) else filtered;
      BuildMultiNeedle(needles, ci, usePrefix, useSuffix)
  }

  /** The any-of part of a combined constraint, and the whole of a pure any-of constraint. */
  function BuildAny(any: seq<Bytes>, ci: bool): Option<Plan> {
    if |any| == 1 then Some(OneOf(ci, any))
    else if ci && !AllAscii(any) then None
    else if |any| <= MAX_NEEDLES then Some(OneOf(ci, any))
    else None
  }

  predicate AllAscii(ss: seq<Bytes>) {
    forall k :: 0 <= k < |ss| ==> IsAscii(ss[k])
  }

  function BuildCombined(re: Regexp, all: seq<Bytes>, any: seq<Bytes>, ci: bool): Option<Plan> {
    var allPF := BuildAll(re, all, ci);
    if ci && !AllAscii(any) then allPF
    else
      match (allPF, BuildAny(any, ci))
      case (None, anyPF) => anyPF
      case (_, None) => allPF
      case (Some(p), Some(q)) => Some(Both(p, q))
  }

  function BuildFromLits(re: Regexp, lits: Lits, ci: bool): Option<Plan> {
    match lits
    case NoLits => None
    case AllOf(all) => BuildAll(re, all, ci)
    case BothOf(all, any) => BuildCombined(re, all, any, ci)
    case AnyOf(any) => if AnyTooShort(any, 2) then None else BuildAny(any, ci)
  }

  /** prefilterFunc: None is "no prefilter", on which the engine always runs. */
  function Build(u: CaseTable, re: Regexp): Option<Plan> {
    var ci := HasFold(re);
    var least := MinLen(re);
    var lits := Extract(u, re, ci);
    if lits.NoLits? then
      if least >= MIN_USEFUL_LENGTH then Some(AtLeast(least)) else None
    else
      match BuildFromLits(re, lits, ci)
      case None => None
      case Some(pf) =>
        var guarded := if least >= MIN_USEFUL_LENGTH then Both(AtLeast(least), pf) else pf;
        Some(if ci then AsciiOnly(guarded) else guarded)
  }

  // ---------------------------------------------------------------- soundness

  /** Wherever an anchor turns a literal into a prefix or suffix test, that literal stands at the anchor. */
  predicate AnchorSafe(u: CaseTable, re: Regexp, ci: bool) {
    var lits := Extract(u, re, ci);
    lits.AllOf? || lits.BothOf? ==> NeedlesAtAnchors(u, re, lits.all, ci)
  }

  lemma {:induction false} BeginAnchorPins(u: CaseTable, re: Regexp, s: Bytes, i: int, j: int)
    requires HasBeginAnchor(re) && 0 <= i <= j <= |s| && Match(u, re, s, i, j)
    ensures i == 0
    decreases re
  {
    match re.op
    case BeginText =>
    case Capture(sub) => BeginAnchorPins(u, sub, s, i, j);
    case Concat(subs) =>
      var m := FirstChild(u, subs, s, i, j);
      BeginAnchorPins(u, subs[0], s, i, m);
  }

  lemma {:induction false} EndAnchorPins(u: CaseTable, re: Regexp, s: Bytes, i: int, j: int)
    requires HasEndAnchor(re) && 0 <= i <= j <= |s| && Match(u, re, s, i, j)
    ensures j == |s|
    decreases re
  {
    match re.op
    case EndText =>
    case Capture(sub) => EndAnchorPins(u, sub, s, i, j);
    case Concat(subs) =>
      var m := LastChild(u, subs, s, i, j);
      EndAnchorPins(u, subs[|subs| - 1], s, m, j);
  }

  lemma {:induction false} FilterShortKeeps(ss: seq<Bytes>, least: nat, w: Bytes)
    ensures w in FilterShort(ss, least) <==> w in ss && |w| >= least
  {
    if ss != [] {
      FilterShortKeeps(ss[..|ss| - 1], least, w);
      assert ss == ss[..|ss| - 1] + [ss[|ss| - 1]];
    }
  }

  lemma Headed(ss: seq<Bytes>)
    requires ss != []
    ensures multiset(ss) == multiset{ss[0]} + multiset(ss[1..])
  {
    assert ss == [ss[0]] + ss[1..];
  }

  predicate LongestFirst(ss: seq<Bytes>) {
    forall k :: 0 < k < |ss| ==> |ss[k - 1]| >= |ss[k]|
  }

  lemma {:induction false} InsertPermutes(w: Bytes, ss: seq<Bytes>)
    ensures multiset(Insert(w, ss)) == multiset{w} + multiset(ss)
  {
    var r := Insert(w, ss);
    Headed(r);
    if ss == [] || |w| >= |ss[0]| {
      assert r[0] == w && r[1..] == ss;
    } else {
      assert r[0] == ss[0] && r[1..] == Insert(w, ss[1..]);
      InsertPermutes(w, ss[1..]);
      Headed(ss);
    }
    hide Insert;
  }

  lemma {:induction false} InsertSorts(w: Bytes, ss: seq<Bytes>)
    requires LongestFirst(ss)
    ensures LongestFirst(Insert(w, ss)) && (Insert(w, ss)[0] == w || (ss != [] && Insert(w, ss)[0] == ss[0]))
  {
    if ss != [] && |w| < |ss[0]| {
      InsertSorts(w, ss[1..]);
    }
  }

  /** The needles are the same, longest first. */
  lemma {:induction false} SortLongestPermutes(ss: seq<Bytes>)
    ensures multiset(SortLongest(ss)) == multiset(ss) && LongestFirst(SortLongest(ss))
  {
    if ss != [] {
      hide Insert, LongestFirst;
      var rest := SortLongest(ss[1..]);
      SortLongestPermutes(ss[1..]);
      InsertPermutes(ss[0], rest);
      InsertSorts(ss[0], rest);
      Headed(ss);
    }
  }

  lemma SortLongestMembers(ss: seq<Bytes>)
    ensures forall w :: w in SortLongest(ss) <==> w in ss
  {
    SortLongestPermutes(ss);
    forall w ensures w in SortLongest(ss) <==> w in ss {
      assert w in multiset(SortLongest(ss)) <==> w in multiset(ss);
    }
  }

  /** A string that occurs in the folded text passes the substring test. */
  lemma OccurrencePasses(ci: bool, s: Bytes, w: Bytes, i: int, j: int)
    requires 0 <= i && j <= |s| && OccursIn(w, Norm(ci, s), i, j)
    ensures Contains(ci, s, w) && Occurs(w, Norm(ci, s)) && Norm(ci, w) == w && Occurs(Norm(ci, w), Norm(ci, s))
  {
    var p :| i <= p && p + |w| <= j && At(w, Norm(ci, s), p);
    assert OccursIn(w, Norm(ci, s), 0, |s|);
    forall k | 0 <= k < |w| ensures Norm(ci, w)[k] == w[k] {
      assert w[k] == Norm(ci, s)[p..p + |w|][k];
    }
  }

  /** The needles an anchored test compares stand at the anchors. */
  predicate NeedlesAtAnchors(u: CaseTable, re: Regexp, all: seq<Bytes>, ci: bool) {
    var needles := FilterShort(all, 2);
    needles != [] ==>
      && (UsesPrefix(re, all) ==> needles[0] == LeadLiteral(u, re, ci))
      && (UsesSuffix(re, all) && !(UsesPrefix(re, all) && |needles| == 1) ==>
            needles[|needles| - 1] == TrailLiteral(u, re, ci))
  }

  lemma NeedlesPass(needles: seq<Bytes>, all: seq<Bytes>, ci: bool, s: Bytes, i: int, j: int)
    requires 0 <= i <= j <= |s| && AllOccur(all, Norm(ci, s), i, j)
    requires needles == FilterShort(all, 2) || needles == SortLongest(FilterShort(all, 2))
    ensures forall k :: 0 <= k < |needles| ==> Contains(ci, s, needles[k])
  {
    SortLongestMembers(FilterShort(all, 2));
    forall k | 0 <= k < |needles| ensures Contains(ci, s, needles[k]) {
      assert needles[k] in needles;
      FilterShortKeeps(all, 2, needles[k]);
      var x :| 0 <= x < |all| && all[x] == needles[k];
      OccurrencePasses(ci, s, all[x], i, j);
    }
  }

  lemma PrefixPasses(u: CaseTable, re: Regexp, ci: bool, s: Bytes, i: int, j: int)
    requires Fits(u, re, ci, s) && 0 <= i <= j <= |s| && Match(u, re, s, i, j) && HasBeginAnchor(re)
    ensures HasPrefix(ci, s, LeadLiteral(u, re, ci))
  {
    BeginAnchorPins(u, re, s, i, j);
    LeadSound(u, re, ci, s, i, j);
  }

  lemma SuffixPasses(u: CaseTable, re: Regexp, ci: bool, s: Bytes, i: int, j: int)
    requires Fits(u, re, ci, s) && 0 <= i <= j <= |s| && Match(u, re, s, i, j) && HasEndAnchor(re)
    ensures HasSuffix(ci, s, TrailLiteral(u, re, ci))
  {
    EndAnchorPins(u, re, s, i, j);
    TrailSound(u, re, ci, s, i, j);
  }

  /** The composed test accepts when its needles occur and its anchored needles stand at the ends. */
  lemma MultiNeedlePasses(needles: seq<Bytes>, ci: bool, usePrefix: bool, useSuffix: bool, s: Bytes)
    requires needles != [] && forall k :: 0 <= k < |needles| ==> Contains(ci, s, needles[k])
    requires usePrefix ==> HasPrefix(ci, s, needles[0])
    requires useSuffix && !(usePrefix && |needles| == 1) ==> HasSuffix(ci, s, needles[|needles| - 1])
    ensures var plan := BuildMultiNeedle(needles, ci, usePrefix, useSuffix); plan.Some? && Accepts(plan.value, s)
  {
  }

  lemma AllPasses(u: CaseTable, re: Regexp, all: seq<Bytes>, ci: bool, s: Bytes, i: int, j: int)
    requires Fits(u, re, ci, s) && 0 <= i <= j <= |s| && Match(u, re, s, i, j)
    requires AllOccur(all, Norm(ci, s), i, j) && NeedlesAtAnchors(u, re, all, ci)
    ensures var plan := BuildAll(re, all, ci); plan.Some? ==> Accepts(plan.value, s)
  {
    var filtered := FilterShort(all, 2);
    var usePrefix, useSuffix := UsesPrefix(re, all), UsesSuffix(re, all);
    var needles := if !usePrefix && !useSuffix then SortLongest(filtered) else filtered;
    if filtered != [] && needles != [] {
      NeedlesPass(needles, all, ci, s, i, j);
      if usePrefix {
        PrefixPasses(u, re, ci, s, i, j);
      }
      if useSuffix {
        SuffixPasses(u, re, ci, s, i, j);
      }
      MultiNeedlePasses(needles, ci, usePrefix, useSuffix, s);
    }
  }

  lemma AnyPasses(any: seq<Bytes>, ci: bool, s: Bytes, i: int, j: int)
    requires 0 <= i <= j <= |s| && SomeOccurs(any, Norm(ci, s), i, j)
    ensures var plan := BuildAny(any, ci); plan.Some? ==> Accepts(plan.value, s)
  {
    OneOfPasses(any, ci, s, i, j);
    assert BuildAny(any, ci).Some? ==> BuildAny(any, ci).value == OneOf(ci, any);
  }

  lemma OneOfPasses(any: seq<Bytes>, ci: bool, s: Bytes, i: int, j: int)
    requires 0 <= i <= j <= |s| && SomeOccurs(any, Norm(ci, s), i, j)
    ensures Accepts(OneOf(ci, any), s)
  {
    var k :| 0 <= k < |any| && OccursIn(any[k], Norm(ci, s), i, j);
    OccurrencePasses(ci, s, any[k], i, j);
    OneIsEnough(any, ci, s, k);
  }

  lemma OneIsEnough(any: seq<Bytes>, ci: bool, s: Bytes, k: int)
    requires 0 <= k < |any| && Contains(ci, s, any[k]) && Occurs(Norm(ci, any[k]), Norm(ci, s))
    ensures Accepts(OneOf(ci, any), s)
  {
  }

  /** What the theorem asks of a regex: the parser's normal form, and literals that stand where they are tested. */
  ghost predicate Admissible(u: CaseTable, re: Regexp) {
    && u.Valid() && FoldNormal(u, re)
    && TrieSafe(u, re, HasFold(re)) && AnchorSafe(u, re, HasFold(re))
  }

  /** "Definitely no match" is never said of an input that matches. */
  ghost predicate NeverMisses(u: CaseTable, re: Regexp) {
    forall s: Bytes :: Matches(u, re, s) ==> (Build(u, re).Some? ==> Accepts(Build(u, re).value, s))
  }

  /** What was extracted passes its tests. */
  lemma LitsPass(u: CaseTable, re: Regexp, ci: bool, s: Bytes, i: int, j: int)
    requires Fits(u, re, ci, s) && TrieSafe(u, re, ci) && AnchorSafe(u, re, ci)
    requires 0 <= i <= j <= |s| && Match(u, re, s, i, j)
    ensures var plan := BuildFromLits(re, Extract(u, re, ci), ci); plan.Some? ==> Accepts(plan.value, s)
  {
    var lits := Extract(u, re, ci);
    ExtractSound(u, re, ci, s, i, j);
    if lits.AllOf? || lits.BothOf? {
      AllPasses(u, re, lits.all, ci, s, i, j);
    }
    if lits.AnyOf? || lits.BothOf? {
      AnyPasses(lits.any, ci, s, i, j);
    }
  }

  lemma MatchPasses(u: CaseTable, re: Regexp, s: Bytes, i: int, j: int)
    requires Admissible(u, re) && 0 <= i <= j <= |s| && Match(u, re, s, i, j)
    ensures Build(u, re).Some? ==> Accepts(Build(u, re).value, s)
  {
    var ci := HasFold(re);
    MinLenIsLowerBound(u, re, s, i, j);
    if ci ==> IsAscii(s) {
      LitsPass(u, re, ci, s, i, j);
    }
  }

  /** The prefilter never rejects an input that the engine would match. */
  lemma PrefilterSound(u: CaseTable, re: Regexp)
    requires Admissible(u, re)
    ensures NeverMisses(u, re)
  {
    forall s: Bytes | Matches(u, re, s) ensures Build(u, re).Some? ==> Accepts(Build(u, re).value, s) {
      var i, j :| 0 <= i <= j <= |s| && Match(u, re, s, i, j);
      MatchPasses(u, re, s, i, j);
    }
  }
}
