/** Required-literal extraction: which byte strings every match of a regex must contain. */
module Literals {
  import opened Bytes
  import opened Utf8
  import opened Regex

  /** The four outcomes of the extraction. */
  datatype Lits =
    | NoLits
    | AllOf(all: seq<Bytes>)                  // every one must be present
    | AnyOf(any: seq<Bytes>)                  // at least one must be present
    | BothOf(all: seq<Bytes>, any: seq<Bytes>) // both constraints

  // ---------------------------------------------------------------- the walk

  /** The rune as written into an extracted literal. */
  function WrittenRune(u: CaseTable, ci: bool, r: int): int {
    var r' := if IsScalar(r) then r else RUNE_ERROR;
    if ci then u.lower(r') else r'
  }

  function LitString(u: CaseTable, runes: seq<int>, ci: bool): Bytes {
    if runes == [] then [] else Encode(WrittenRune(u, ci, runes[0])) + LitString(u, runes[1..], ci)
  }

  /** The text of a literal node; empty for any other node and for a literal holding U+FFFD. */
  function RawLiteral(u: CaseTable, re: Regexp, ci: bool): Bytes {
    if re.op.Literal? && RUNE_ERROR !in re.op.runes then LitString(u, re.op.runes, ci) else []
  }

  /** The first of the longest strings. */
  function Longest(ss: seq<Bytes>): (r: Bytes)
    ensures ss != [] ==> r in ss && forall k :: 0 <= k < |ss| ==> |ss[k]| <= |r|
  {
    if ss == [] then []
    else if |ss| == 1 then ss[0]
    else
      var best := Longest(ss[..|ss| - 1]);
      var last := ss[|ss| - 1];
      if |last| > |best| then last else best
  }

  predicate AnyTooShort(ss: seq<Bytes>, least: nat) {
    exists k :: 0 <= k < |ss| && |ss[k]| < least
  }

  function Extract(u: CaseTable, re: Regexp, ci: bool): Lits
    decreases re, 0
  {
    match re.op
    case Literal(runes) =>
      if RUNE_ERROR in runes then NoLits
      else
        var s := LitString(u, runes, ci);
        if |s| < 2 then NoLits else AllOf([s])
    case Capture(sub) => Extract(u, sub, ci)
    case Concat(subs) =>
      var (all, best) := Collect(u, subs, ci, [], []);
      if all != [] then
        if best != [] && !AnyTooShort(best, 2) then BothOf(all, best) else AllOf(all)
      else
        var trie := TrieReconstruct(u, subs, ci);
        if trie != [] then AnyOf(trie)
        else if best != [] then AnyOf(best)
        else NoLits
    case Alternate(subs) =>
      var branches := BranchLits(u, subs, ci);
      if branches == [] then NoLits else AnyOf(branches)
    case Plus(sub) => Extract(u, sub, ci)
    case Repeat(sub, min, _) => if min >= 1 then Extract(u, sub, ci) else NoLits
    case _ => NoLits
  }

  /** The children of a concatenation in order: every mandatory literal, and the smallest any-of set. */
  function Collect(u: CaseTable, subs: seq<Regexp>, ci: bool, all: seq<Bytes>, best: seq<Bytes>):
    (seq<Bytes>, seq<Bytes>)
    decreases subs, 1
  {
    if subs == [] then (all, best)
    else
      match Extract(u, subs[0], ci)
      case AllOf(v) => Collect(u, subs[1..], ci, all + v, best)
      case AnyOf(v) => Collect(u, subs[1..], ci, all, if best == [] || |v| < |best| then v else best)
      case _ => Collect(u, subs[1..], ci, all, best)
  }

  /** One representative set per branch of an alternation; empty when some branch has none. */
  function BranchLits(u: CaseTable, subs: seq<Regexp>, ci: bool): seq<Bytes>
    decreases subs, 1
  {
    if subs == [] then []
    else
      var rest := BranchLits(u, subs[1..], ci);
      if |subs| > 1 && rest == [] then []
      else
        match Extract(u, subs[0], ci)
        case NoLits => []
        case AllOf(v) => [Longest(v)] + rest
        case AnyOf(v) => v + rest
        case BothOf(_, any) => any + rest
  }

  /** Undoes common-prefix factoring: prefix literal times suffixes, for exactly two children. */
  function TrieReconstruct(u: CaseTable, subs: seq<Regexp>, ci: bool): seq<Bytes>
    decreases subs, 2
  {
    if |subs| != 2 then []
    else
      var prefix := RawLiteral(u, subs[0], ci);
      if prefix == [] then [] else Prefixed(prefix, RawSuffixes(u, subs[1], ci))
  }

  function Prefixed(prefix: Bytes, suffixes: seq<Bytes>): (r: seq<Bytes>)
    ensures forall k :: 0 <= k < |suffixes| && |prefix + suffixes[k]| >= 2 ==> prefix + suffixes[k] in r
    ensures forall w :: w in r ==> exists k :: 0 <= k < |suffixes| && w == prefix + suffixes[k]
  {
    if suffixes == [] then []
    else
      var full := prefix + suffixes[0];
      (if |full| >= 2 then [full] else []) + Prefixed(prefix, suffixes[1..])
  }

  /** Candidate suffixes of a factored alternation; empty when some branch has none. */
  function RawSuffixes(u: CaseTable, re: Regexp, ci: bool): seq<Bytes>
    decreases re, 1
  {
    match re.op
    case Literal(_) =>
      var s := RawLiteral(u, re, ci);
      if s == [] then [] else [s]
    case Alternate(subs) => AllSuffixes(u, subs, ci)
    case Concat(_) =>
      (match Extract(u, re, ci)
       case AllOf(v) => if |v| == 1 then [v[0]] else []
       case AnyOf(v) => v
       case BothOf(all, _) => if Longest(all) == [] then [] else [Longest(all)]
       case NoLits => [])
    case Capture(sub) => RawSuffixes(u, sub, ci)
    case _ => []
  }

  function AllSuffixes(u: CaseTable, subs: seq<Regexp>, ci: bool): seq<Bytes>
    decreases subs, 1
  {
    if subs == [] then []
    else
      var first := RawSuffixes(u, subs[0], ci);
      var rest := AllSuffixes(u, subs[1..], ci);
      if first == [] || (|subs| > 1 && rest == []) then [] else first + rest
  }

  // ---------------------------------------------------------------- leading and trailing literals

  predicate IsEmptyWidth(re: Regexp) {
    match re.op
    case EmptyMatch => true
    case BeginLine => true
    case EndLine => true
    case BeginText => true
    case EndText => true
    case WordBoundary => true
    case NoWordBoundary => true
    case _ => false
  }

  /** A literal found at the very start of every match; empty when the syntax shows none. */
  function LeadLiteral(u: CaseTable, re: Regexp, ci: bool): Bytes
    decreases re, 0
  {
    match re.op
    case Literal(_) => RawLiteral(u, re, ci)
    case Capture(sub) => LeadLiteral(u, sub, ci)
    case Plus(sub) => LeadLiteral(u, sub, ci)
    case Repeat(sub, min, _) => if min >= 1 then LeadLiteral(u, sub, ci) else []
    case Concat(subs) => LeadOfAll(u, subs, ci)
    case _ => []
  }

  function LeadOfAll(u: CaseTable, subs: seq<Regexp>, ci: bool): Bytes
    decreases subs, 1
  {
    if subs == [] then []
    else if IsEmptyWidth(subs[0]) then LeadOfAll(u, subs[1..], ci)
    else LeadLiteral(u, subs[0], ci)
  }

  /** A literal found at the very end of every match; empty when the syntax shows none. */
  function TrailLiteral(u: CaseTable, re: Regexp, ci: bool): Bytes
    decreases re, 0
  {
    match re.op
    case Literal(_) => RawLiteral(u, re, ci)
    case Capture(sub) => TrailLiteral(u, sub, ci)
    case Plus(sub) => TrailLiteral(u, sub, ci)
    case Repeat(sub, min, _) => if min >= 1 then TrailLiteral(u, sub, ci) else []
    case Concat(subs) => TrailOfAll(u, subs, ci)
    case _ => []
  }

  function TrailOfAll(u: CaseTable, subs: seq<Regexp>, ci: bool): Bytes
    decreases subs, 1
  {
    if subs == [] then []
    else
      var n := |subs| - 1;
      if IsEmptyWidth(subs[n]) then TrailOfAll(u, subs[..n], ci) else TrailLiteral(u, subs[n], ci)
  }

  // ---------------------------------------------------------------- when trie reconstruction is sound

  /** Syntactic check that every match of `re` starts with one of RawSuffixes(re). */
  predicate LedSuffixes(u: CaseTable, re: Regexp, ci: bool)
    decreases re, 1
  {
    match re.op
    case Capture(sub) => LedSuffixes(u, sub, ci)
    case Alternate(subs) => forall k :: 0 <= k < |subs| ==> LedSuffixes(u, subs[k], ci)
    case Concat(subs) =>
      (match Extract(u, re, ci)
       case AllOf(v) => |v| == 1 ==> v[0] == LeadLiteral(u, re, ci)
       case BothOf(all, _) => Longest(all) == LeadLiteral(u, re, ci)
       case AnyOf(v) => v == TrieReconstruct(u, subs, ci) && LedSuffixes(u, subs[1], ci)
       case NoLits => true)
    case _ => true
  }

  /** Wherever the walk reconstructs a trie, the suffixes stand directly behind the prefix. */
  predicate TrieSafe(u: CaseTable, re: Regexp, ci: bool)
    decreases re
  {
    match re.op
    case Capture(sub) => TrieSafe(u, sub, ci)
    case Plus(sub) => TrieSafe(u, sub, ci)
    case Repeat(sub, min, _) => min >= 1 ==> TrieSafe(u, sub, ci)
    case Alternate(subs) => forall k :: 0 <= k < |subs| ==> TrieSafe(u, subs[k], ci)
    case Concat(subs) =>
      && (forall k :: 0 <= k < |subs| ==> TrieSafe(u, subs[k], ci))
      && (Collect(u, subs, ci, [], []).0 == [] && TrieReconstruct(u, subs, ci) != []
          ==> LedSuffixes(u, subs[1], ci))
    case _ => true
  }
}
