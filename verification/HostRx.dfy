/** The @rx operator: the compiled prefilter in front of the regex engine. */
module HostRx {
  import opened Bytes
  import opened Regex
  import opened Literals
  import opened LiteralsSound
  import opened Prefilter
  import opened Wrappers
  import opened WuManber

  // ---------------------------------------------------------------- string searches

  /** The first index of `b` in `s` from `i` on, or -1. */
  method IndexByteFrom(s: Bytes, i: nat, b: byte) returns (k: int)
    requires i <= |s|
    ensures k < 0 ==> forall x :: i <= x < |s| ==> s[x] != b
    ensures k >= 0 ==> i <= k < |s| && s[k] == b && forall x :: i <= x < k ==> s[x] != b
  {
    k := i;
    while k < |s|
      invariant i <= k <= |s| && forall x :: i <= x < k ==> s[x] != b
    {
      if s[k] == b {
        return;
      }
      k := k + 1;
    }
    k := -1;
  }

  /** strings.Contains. */
  method ContainsExact(s: Bytes, needle: Bytes) returns (found: bool)
    ensures found <==> Occurs(needle, s)
  {
    var p := 0;
    while p + |needle| <= |s|
      invariant forall q :: q < p ==> !At(needle, s, q)
    {
      if s[p..p + |needle|] == needle {
        assert At(needle, s, p);
        return true;
      }
      p := p + 1;
    }
    return false;
  }

  /** Case-insensitive search for an ASCII needle, jumping between candidates for its first byte. */
  method ContainsFoldAsciiOnly(s: Bytes, needle: Bytes) returns (found: bool)
    requires needle != [] && IsAscii(needle)
    ensures found <==> Occurs(needle, AsciiLower(s))
  {
    hide AsciiLower, IsAscii;
    var limit := |s| - |needle|;
    if limit < 0 {
      return false;
    }
    var first := needle[0];
    var hasUpper := 'a' as int <= first <= 'z' as int;
    var i := 0;
    while i <= limit
      invariant 0 <= i <= limit + 1
      invariant forall p :: p < i ==> !At(needle, AsciiLower(s), p)
      decreases limit - i
    {
      var lo := IndexByteFrom(s, i, first);
      if hasUpper {
        var hi := IndexByteFrom(s, i, first - 32);
        if hi >= 0 && (lo < 0 || hi < lo) {
          lo := hi;
        }
      }
      NoneBeforeCandidate(s, needle, i, lo);
      if lo < 0 {
        return false;
      }
      i := lo;
      if i > limit {
        return false;
      }
      var equal := EqualFold(s[i..i + |needle|], needle);
      LowerWindow(s, i, |needle|);
      if equal {
        assert At(needle, AsciiLower(s), i);
        return true;
      }
      i := i + 1;
    }
    return false;
  }

  /** Where neither case of the needle's first byte stands, the needle cannot start. */
  lemma NoneBeforeCandidate(s: Bytes, needle: Bytes, i: int, lo: int)
    requires needle != [] && 0 <= i <= |s|
    requires var end := if lo < 0 then |s| else lo;
             end <= |s| && forall x :: i <= x < end ==>
               s[x] != needle[0] && ('a' as int <= needle[0] <= 'z' as int ==> s[x] != needle[0] - 32)
    ensures var end := if lo < 0 then |s| else lo; forall p :: i <= p < end ==> !At(needle, AsciiLower(s), p)
  {
    var end := if lo < 0 then |s| else lo;
    forall p | i <= p < end ensures !At(needle, AsciiLower(s), p) {
      assert AsciiLower(s)[p] == AsciiLowerByte(s[p]) != needle[0];
      FirstDiffers(needle, AsciiLower(s), p);
    }
  }

  lemma FirstDiffers(w: Bytes, t: Bytes, p: int)
    requires w != [] && 0 <= p < |t| && t[p] != w[0]
    ensures !At(w, t, p)
  {
    if p + |w| <= |t| {
      assert t[p..p + |w|][0] != w[0];
    }
  }

  method IsAsciiString(s: Bytes) returns (ascii: bool)
    ensures ascii <==> IsAscii(s)
  {
    for i := 0 to |s|
      invariant forall k :: 0 <= k < i ==> s[k] < 128
    {
      if s[i] > 127 {
        return false;
      }
    }
    return true;
  }

  method ContainsNeedle(ci: bool, s: Bytes, needle: Bytes) returns (found: bool)
    ensures found <==> Contains(ci, s, needle)
  {
    if !ci {
      found := ContainsExact(s, needle);
    } else if |needle| == 0 {
      found := true;
    } else if |s| < |needle| {
      found := false;
    } else {
      var ascii := IsAsciiString(needle);
      if ascii {
        found := ContainsFoldAsciiOnly(s, needle);
      } else {
        found := true;
      }
    }
  }

  /** filterShort: moves the long strings to the front of the slice and returns how many there are. */
  method FilterShortInPlace(ss: array<Bytes>, least: nat) returns (k: nat)
    modifies ss
    ensures k <= ss.Length
    ensures ss[..k] == FilterShort(old(ss[..]), least)
    ensures ss[k..] == old(ss[k..])
  {
    k := 0;
    ghost var was := ss[..];
    for i := 0 to ss.Length
      invariant k <= i
      invariant ss[..k] == FilterShort(was[..i], least)
      invariant forall x :: i <= x < ss.Length ==> ss[x] == was[x]
      invariant forall x :: k <= x < ss.Length ==> ss[x] == was[x]
    {
      assert was[..i + 1][..i] == was[..i];
      if |ss[i]| >= least {
        ss[k] := ss[i];
        k := k + 1;
      }
    }
    assert was[..ss.Length] == was;
  }

  // ---------------------------------------------------------------- the compiled prefilter

  /** The needle set of the plan's multi-needle test, if it has one. */
  function MultiOf(plan: Plan): Option<(bool, seq<Bytes>)> {
    match plan
    case OneOf(ci, needles) => if |needles| == 1 then None else Some((ci, needles))
    case Both(first, second) => if MultiOf(first).Some? then MultiOf(first) else MultiOf(second)
    case AsciiOnly(inner) => MultiOf(inner)
    case _ => None
  }

  /** One searcher serves every multi-needle test of the plan. */
  predicate OneSearcher(plan: Plan, ci: bool, needles: seq<Bytes>) {
    match plan
    case OneOf(ci', needles') => |needles'| == 1 || (ci == ci' && needles == needles')
    case Both(first, second) => OneSearcher(first, ci, needles) && OneSearcher(second, ci, needles)
    case AsciiOnly(inner) => OneSearcher(inner, ci, needles)
    case _ => true
  }

  predicate Searchable(multi: Option<(bool, seq<Bytes>)>) {
    multi.Some? ==>
      && (forall k :: 0 <= k < |multi.value.1| ==> multi.value.1[k] != [])
      && (multi.value.0 ==> AllAscii(multi.value.1))
  }

  predicate WellFormed(plan: Plan) {
    var multi := MultiOf(plan);
    Searchable(multi) &&
    if multi.Some? then OneSearcher(plan, multi.value.0, multi.value.1) else OneSearcher(plan, false, [])
  }

  lemma AllPartHasNoSearcher(re: Regexp, all: seq<Bytes>, ci: bool, ci': bool, needles: seq<Bytes>)
    ensures var plan := BuildAll(re, all, ci);
            plan.Some? ==> MultiOf(plan.value).None? && OneSearcher(plan.value, ci', needles)
  {
  }

  lemma AnyPartIsSearchable(any: seq<Bytes>, ci: bool)
    requires AllLong(any)
    ensures var plan := BuildAny(any, ci);
            plan.Some? ==>
              && (MultiOf(plan.value).None? || MultiOf(plan.value) == Some((ci, any)))
              && (MultiOf(plan.value).None? ==> OneSearcher(plan.value, false, []))
              && OneSearcher(plan.value, ci, any) && Searchable(MultiOf(plan.value))
  {
    forall k | 0 <= k < |any| ensures any[k] != [] {
      assert any[k] in any;
    }
  }

  lemma BothWellFormed(first: Plan, second: Plan)
    requires MultiOf(first).None? && WellFormed(second)
    requires forall ci, needles :: OneSearcher(first, ci, needles)
    ensures WellFormed(Both(first, second))
  {
  }

  /** Every built plan needs at most one searcher, and only over non-empty (when folding: ASCII) needles. */
  lemma BuildWellFormed(u: CaseTable, re: Regexp)
    ensures Build(u, re).Some? ==> WellFormed(Build(u, re).value)
  {
    var ci := HasFold(re);
    var lits := Extract(u, re, ci);
    ExtractNonEmpty(u, re, ci);
    forall ci', needles
      ensures (lits.AllOf? || lits.BothOf?) && BuildAll(re, lits.all, ci).Some? ==>
                OneSearcher(BuildAll(re, lits.all, ci).value, ci', needles)
    {
      if lits.AllOf? || lits.BothOf? {
        AllPartHasNoSearcher(re, lits.all, ci, ci', needles);
      }
    }
    if lits.AllOf? || lits.BothOf? {
      AllPartHasNoSearcher(re, lits.all, ci, ci, []);
    }
    if lits.AnyOf? || lits.BothOf? {
      AnyPartIsSearchable(lits.any, ci);
    }
    if !lits.NoLits? && BuildFromLits(re, lits, ci).Some? {
      var pf := BuildFromLits(re, lits, ci).value;
      assert WellFormed(pf);
      BothWellFormed(AtLeast(MinLen(re)), pf);
    }
  }

  class Compiled {
    const plan: Plan
    const searcher: IndexedMatcher?

    ghost predicate Valid()
      reads if searcher == null then {} else {searcher.shift, searcher.endBuckets}
    {
      Served(plan, searcher)
    }

    constructor (plan: Plan)
      requires WellFormed(plan)
      ensures Valid() && this.plan == plan
      ensures searcher != null ==> fresh(searcher.shift) && fresh(searcher.endBuckets)
    {
      this.plan := plan;
      var multi := MultiOf(plan);
      if multi.Some? {
        this.searcher := new IndexedMatcher(multi.value.1, multi.value.0);
      } else {
        this.searcher := null;
      }
      new;
      if multi.Some? {
        SearcherServes(plan, searcher);
      } else {
        NeedsNone(plan);
      }
    }

    /** The closure's answer on `s`. */
    method MayMatch(s: Bytes) returns (may: bool)
      requires Valid()
      ensures may <==> Accepts(plan, s)
    {
      may := Run(plan, searcher, s);
    }
  }

  /** The searcher at hand is the one every multi-needle test of `plan` asks for. */
  ghost predicate Served(plan: Plan, im: IndexedMatcher?)
    reads if im == null then {} else {im.shift, im.endBuckets}
  {
    match plan
    case OneOf(ci, needles) =>
      |needles| == 1 || (im != null && im.Valid() && im.ci == ci && im.needles == needles)
    case Both(first, second) => Served(first, im) && Served(second, im)
    case AsciiOnly(inner) => Served(inner, im)
    case _ => true
  }

  lemma {:induction false} SearcherServes(plan: Plan, im: IndexedMatcher)
    requires im.Valid() && OneSearcher(plan, im.ci, im.needles)
    ensures Served(plan, im)
  {
    match plan
    case Both(first, second) =>
      SearcherServes(first, im);
      SearcherServes(second, im);
    case AsciiOnly(inner) => SearcherServes(inner, im);
    case _ =>
  }

  lemma {:induction false} NeedsNone(plan: Plan)
    requires MultiOf(plan).None?
    ensures Served(plan, null)
  {
    match plan
    case Both(first, second) =>
      NeedsNone(first);
      NeedsNone(second);
    case AsciiOnly(inner) => NeedsNone(inner);
    case _ =>
  }

  /** Runs the composed tests on one input. */
  method Run(plan: Plan, im: IndexedMatcher?, s: Bytes) returns (may: bool)
    requires Served(plan, im)
    ensures may <==> Accepts(plan, s)
    decreases plan
  {
    match plan
    case AtLeast(least) =>
      may := |s| >= least;
    case Needles(ci, prefix, suffix, middle) =>
      if prefix != [] && !HasPrefix(ci, s, prefix) {
        return false;
      }
      if suffix != [] && !HasSuffix(ci, s, suffix) {
        return false;
      }
      for k := 0 to |middle|
        invariant forall x :: 0 <= x < k ==> Contains(ci, s, middle[x])
      {
        var found := ContainsNeedle(ci, s, middle[k]);
        if !found {
          return false;
        }
      }
      may := true;
    case OneOf(ci, needles) =>
      if |needles| == 1 {
        may := ContainsNeedle(ci, s, needles[0]);
      } else {
        may := im.Match(s);
      }
    case Both(first, second) =>
      may := Run(first, im, s);
      if may {
        may := Run(second, im, s);
      }
    case AsciiOnly(inner) =>
      may := IsAsciiString(s);
      if may {
        may := Run(inner, im, s);
      } else {
        may := true;
      }
  }

  // ---------------------------------------------------------------- the operator

  class HostRx {
    const onHost: bool // the host compiled the pattern; otherwise Go's engine is the fallback
    const minLen: int
    const prefilter: Compiled?
    ghost const tree: Option<Regexp>
    ghost const u: CaseTable

    ghost predicate Valid()
      reads if prefilter != null && prefilter.searcher != null
            then {prefilter.searcher.shift, prefilter.searcher.endBuckets} else {}
    {
      && minLen == (if tree.Some? then MinLen(tree.value) else 0)
      && (prefilter != null) == (tree.Some? && Build(u, tree.value).Some?)
      && (prefilter != null ==> prefilter.Valid() && prefilter.plan == Build(u, tree.value).value)
    }

    /** `parsed` is None when the pattern does not parse; then there is no length bound and no prefilter. */
    constructor (u: CaseTable, parsed: Option<Regexp>, onHost: bool)
      ensures Valid() && tree == parsed && this.u == u && this.onHost == onHost
    {
      this.u, this.tree, this.onHost := u, parsed, onHost;
      this.minLen := if parsed.Some? then MinLen(parsed.value) else 0;
      if parsed.Some? && Build(u, parsed.value).Some? {
        BuildWellFormed(u, parsed.value);
        this.prefilter := new Compiled(Build(u, parsed.value).value);
      } else {
        this.prefilter := null;
      }
    }

    /** newHostRX: the host's engine if it compiles the pattern, else Go's, else null for its compile error. */
    static method NewHostRX(u: CaseTable, parsed: Option<Regexp>, hostCompiles: bool, goCompiles: bool)
    returns (rx: HostRx?)
      ensures rx == null <==> !hostCompiles && !goCompiles
      ensures rx != null ==> fresh(rx) && rx.Valid() && rx.tree == parsed && rx.u == u && rx.onHost == hostCompiles
    {
      if hostCompiles {
        return new HostRx(u, parsed, true);
      }
      if !goCompiles {
        return null;
      }
      return new HostRx(u, parsed, false);
    }

    /** Both guards let `value` through to the engine. */
    ghost predicate Reaches(value: Bytes) {
      |value| >= minLen && (prefilter != null ==> Accepts(prefilter.plan, value))
    }

    /** Evaluates the operator; `host` and `fallback` are what the two regex engines answer for this value. */
    method Evaluate(value: Bytes, host: bool, fallback: bool) returns (matched: bool)
      requires Valid()
      ensures onHost ==> (matched <==> host && Reaches(value))
      ensures !onHost ==> (matched <==> fallback && Reaches(value))
      ensures tree.Some? && Admissible(u, tree.value) && onHost && host == Matches(u, tree.value, value) ==> matched == host
      ensures tree.Some? && Admissible(u, tree.value) && !onHost && fallback == Matches(u, tree.value, value) ==>
                matched == fallback
      ensures tree.None? ==> matched == if onHost then host else fallback
    {
      ghost var mustPass := tree.Some? && Admissible(u, tree.value) && Matches(u, tree.value, value);
      if mustPass {
        MatchingValuePasses(u, tree.value, value);
      }
      if minLen > 0 && |value| < minLen {
        return false;
      }
      if prefilter != null {
        var may := prefilter.MayMatch(value);
        if !may {
          return false;
        }
      }
      return if onHost then host else fallback;
    }
  }

  /** Both guards let every matching value through. */
  lemma MatchingValuePasses(u: CaseTable, re: Regexp, value: Bytes)
    requires Admissible(u, re) && Matches(u, re, value)
    ensures |value| >= MinLen(re) && (Build(u, re).Some? ==> Accepts(Build(u, re).value, value))
  {
    var i, j :| 0 <= i <= j <= |value| && Match(u, re, value, i, j);
    MinLenIsLowerBound(u, re, value, i, j);
    MatchPasses(u, re, value, i, j);
  }
}
