/** Exactly where the prefilter's literal tests are right, on the shapes that separate right from wrong. */
module PrefilterLimits {
  import opened Bytes
  import opened Utf8
  import opened Regex
  import opened Literals
  import opened LiteralsSound
  import opened Prefilter
  import opened Wrappers

  // ---------------------------------------------------------------- literal tries

  /** What prefix factoring of plain words produces: a word, or a prefix and an alternation of tries. */
  predicate IsLiteralTrie(u: CaseTable, re: Regexp, ci: bool)
    decreases re
  {
    match re.op
    case Literal(_) => RawLiteral(u, re, ci) != []
    case Concat(subs) =>
      && |subs| == 2 && RawLiteral(u, subs[0], ci) != []
      && subs[1].op.Alternate? && subs[1].op.subs != []
      && forall k :: 0 <= k < |subs[1].op.subs| ==> IsLiteralTrie(u, subs[1].op.subs[k], ci)
    case _ => false
  }

  /** Tries of any depth have suffixes, and the suffixes lead every match. */
  lemma {:induction false} TrieIsLed(u: CaseTable, re: Regexp, ci: bool)
    requires IsLiteralTrie(u, re, ci)
    ensures LedTrie(u, re, ci)
    decreases re
  {
    if re.op.Concat? {
      var branches := re.op.subs[1].op.subs;
      forall k | 0 <= k < |branches| ensures LedTrie(u, branches[k], ci) {
        TrieIsLed(u, branches[k], ci);
      }
      AlternationStep(u, re.op.subs[1], ci);
      TrieStep(u, re, ci);
    }
  }

  predicate LedTrie(u: CaseTable, re: Regexp, ci: bool) {
    RawSuffixes(u, re, ci) != [] && LedSuffixes(u, re, ci) && TrieSafe(u, re, ci)
  }

  lemma AlternationStep(u: CaseTable, alt: Regexp, ci: bool)
    requires alt.op.Alternate? && alt.op.subs != []
    requires forall k :: 0 <= k < |alt.op.subs| ==> LedTrie(u, alt.op.subs[k], ci)
    ensures LedTrie(u, alt, ci)
  {
    hide Extract, Collect, LeadLiteral, RawLiteral, TrieReconstruct;
    BranchesHaveSuffixes(u, alt.op.subs, ci);
  }

  lemma TrieStep(u: CaseTable, re: Regexp, ci: bool)
    requires re.op.Concat? && |re.op.subs| == 2 && RawLiteral(u, re.op.subs[0], ci) != []
    requires re.op.subs[1].op.Alternate? && LedTrie(u, re.op.subs[1], ci)
    ensures LedTrie(u, re, ci)
  {
    hide LitString, RawLiteral, Extract, Collect, LeadLiteral, TrieReconstruct;
    TrieLead(u, re, ci);
    TrieRebuilds(u, re, ci);
    TrieExtract(u, re, ci);
    TrieSuffixes(u, re, ci);
    assert TrieSafe(u, re, ci) by { hide RawSuffixes, LedSuffixes; }
    hide TrieSafe;
  }

  lemma TrieLead(u: CaseTable, re: Regexp, ci: bool)
    requires re.op.Concat? && |re.op.subs| == 2 && RawLiteral(u, re.op.subs[0], ci) != []
    ensures LeadLiteral(u, re, ci) == RawLiteral(u, re.op.subs[0], ci) && TrieSafe(u, re.op.subs[0], ci)
  {
    hide LitString;
    assert LeadOfAll(u, re.op.subs, ci) == LeadLiteral(u, re.op.subs[0], ci);
  }

  lemma TrieRebuilds(u: CaseTable, re: Regexp, ci: bool)
    requires re.op.Concat? && |re.op.subs| == 2 && RawLiteral(u, re.op.subs[0], ci) != []
    requires RawSuffixes(u, re.op.subs[1], ci) != []
    ensures TrieReconstruct(u, re.op.subs, ci) != []
  {
    hide RawLiteral, RawSuffixes;
    var ws := RawSuffixes(u, re.op.subs[1], ci);
    SuffixesNonEmpty(u, re.op.subs[1], ci);
    assert ws[0] in ws;
    PrefixedNonEmpty(RawLiteral(u, re.op.subs[0], ci), ws);
  }

  /** The suffixes of a trie node: its prefix, or the rebuilt words. */
  lemma TrieSuffixes(u: CaseTable, re: Regexp, ci: bool)
    requires re.op.Concat? && |re.op.subs| == 2 && re.op.subs[1].op.Alternate?
    requires RawLiteral(u, re.op.subs[0], ci) != [] && RawLiteral(u, re.op.subs[0], ci) == LeadLiteral(u, re, ci)
    requires TrieReconstruct(u, re.op.subs, ci) != [] && LedSuffixes(u, re.op.subs[1], ci)
    ensures RawSuffixes(u, re, ci) != [] && LedSuffixes(u, re, ci)
  {
    TrieExtract(u, re, ci);
    hide RawLiteral, Extract, Collect, LeadLiteral, TrieReconstruct;
    assert RawSuffixes(u, re, ci) != [] by { hide LedSuffixes; }
    hide RawSuffixes;
  }

  lemma TrieOf(u: CaseTable, l: Regexp, alt: Regexp, p: Bytes, ws: seq<Bytes>)
    requires p != [] && RawLiteral(u, l, false) == p && RawSuffixes(u, alt, false) == ws
    ensures TrieReconstruct(u, [l, alt], false) == Prefixed(p, ws)
  {
  }

  lemma {:induction false} BranchesHaveSuffixes(u: CaseTable, subs: seq<Regexp>, ci: bool)
    requires subs != [] && forall k :: 0 <= k < |subs| ==> RawSuffixes(u, subs[k], ci) != []
    ensures AllSuffixes(u, subs, ci) != []
  {
    if |subs| > 1 {
      BranchesHaveSuffixes(u, subs[1..], ci);
    }
  }

  lemma PrefixedNonEmpty(prefix: Bytes, ws: seq<Bytes>)
    requires prefix != [] && ws != [] && ws[0] != []
    ensures Prefixed(prefix, ws) != []
  {
    assert |prefix + ws[0]| >= 2;
  }

  /** The extraction from one trie node: its prefix when that is long enough, else the rebuilt words. */
  lemma TrieExtract(u: CaseTable, re: Regexp, ci: bool)
    requires re.op.Concat? && |re.op.subs| == 2 && re.op.subs[1].op.Alternate?
    requires RawLiteral(u, re.op.subs[0], ci) != []
    ensures var subs := re.op.subs;
            var p := RawLiteral(u, subs[0], ci);
            var lits := Extract(u, re, ci);
            if |p| >= 2 then lits == AllOf([p]) || (lits.BothOf? && lits.all == [p])
            else Collect(u, subs, ci, [], []).0 == [] &&
                 (TrieReconstruct(u, subs, ci) != [] ==> lits == AnyOf(TrieReconstruct(u, subs, ci)))
  {
    var subs := re.op.subs;
    var p := RawLiteral(u, subs[0], ci);
    assert Extract(u, subs[0], ci) == if |p| >= 2 then AllOf([p]) else NoLits;
    var lits := Extract(u, subs[1], ci);
    assert lits.NoLits? || lits.AnyOf?;
    assert subs[1..][1..] == [];
    var all := if |p| >= 2 then [p] else [];
    assert [] + [p] == [p];
    assert Collect(u, subs, ci, [], []) == Collect(u, subs[1..], ci, all, []);
    assert Collect(u, subs[1..], ci, all, []).0 == all;
  }

  /** Every match of a literal trie begins with one of the returned words. */
  lemma TrieWordsLead(u: CaseTable, re: Regexp, ci: bool, s: Bytes, i: int, j: int)
    requires IsLiteralTrie(u, re, ci) && Fits(u, re, ci, s)
    requires 0 <= i <= j <= |s| && Match(u, re, s, i, j)
    ensures SomeLeads(RawSuffixes(u, re, ci), Norm(ci, s), i, j)
  {
    TrieIsLed(u, re, ci);
    SuffixesLead(u, re, ci, s, i, j);
  }

  // ---------------------------------------------------------------- small regexes

  function Node(op: Op): Regexp {
    Regexp(op, false)
  }

  /** A word of scalar values other than U+FFFD. */
  predicate IsWord(runes: seq<int>) {
    forall k :: 0 <= k < |runes| ==> IsScalar(runes[k]) && runes[k] != RUNE_ERROR
  }

  function Text(u: CaseTable, runes: seq<int>): Bytes {
    LitString(u, runes, false)
  }

  lemma {:induction false} WordMatchesItself(u: CaseTable, runes: seq<int>, s: Bytes, i: int, j: int)
    requires IsWord(runes) && 0 <= i <= j <= |s| && s[i..j] == Text(u, runes)
    ensures MatchRunes(u, runes, false, s, i, j)
  {
    if runes != [] {
      WordStart(u, runes, s, i, j);
      hide LitString, Encode, Decode;
      WordMatchesItself(u, runes[1..], s, i + |Encode(runes[0])|, j);
    }
  }

  lemma WordStart(u: CaseTable, runes: seq<int>, s: Bytes, i: int, j: int)
    requires runes != [] && IsWord(runes) && 0 <= i <= j <= |s| && s[i..j] == Text(u, runes)
    ensures var e := |Encode(runes[0])|; i + e <= j && Decode(s[i..]) == (runes[0], e) && s[i + e..j] == Text(u, runes[1..])
  {
    var e := Encode(runes[0]);
    assert Text(u, runes) == e + Text(u, runes[1..]);
    hide LitString, Encode, Decode;
    CutBehind(e, Text(u, runes[1..]), s, i, j);
    EncodedDecodes(runes[0], s[i + |e|..]);
  }

  lemma CutBehind(e: Bytes, rest: Bytes, s: Bytes, i: int, j: int)
    requires 0 <= i <= j <= |s| && s[i..j] == e + rest
    ensures var m := i + |e|; m <= j && s[i..] == e + s[m..] && s[m..j] == rest
  {
    var m := i + |e|;
    assert e == s[i..j][..|e|] == s[i..m];
    assert rest == s[i..j][|e|..] == s[m..j];
  }

  /** Any character, any but a newline, or one of a class. */
  predicate IsOneChar(g: Regexp) {
    !g.foldCase && (g.op.AnyChar? || g.op.AnyCharNotNL? || g.op.CharClass?)
  }

  /** The character matched once, or repeated, or optional. */
  function CharOf(g: Regexp): Regexp {
    match g.op
    case Star(sub) => sub
    case Plus(sub) => sub
    case Quest(sub) => sub
    case _ => g
  }

  predicate IsCharGap(g: Regexp) {
    !g.foldCase && IsOneChar(CharOf(g))
  }

  /** The gap can be the single ASCII byte `c`. */
  predicate TakesByte(g: Regexp, c: byte) {
    c < 128 &&
    match CharOf(g).op
    case AnyChar => true
    case AnyCharNotNL => c != '\n' as int
    case CharClass(ranges) => InClass(ranges, c)
    case _ => false
  }

  predicate IsEmptyNode(g: Regexp) {
    g == Node(EmptyMatch)
  }

  lemma GapTakesOne(u: CaseTable, g: Regexp, s: Bytes, i: int)
    requires IsCharGap(g) && 0 <= i < |s| && TakesByte(g, s[i])
    ensures Match(u, g, s, i, i + 1)
  {
    assert Decode(s[i..]) == (s[i] as int, 1);
    var one := CharOf(g);
    assert Match(u, one, s, i, i + 1);
    assert MatchTimes(u, one, 0, s, i + 1, i + 1);
    assert MatchTimes(u, one, 1, s, i, i + 1);
  }

  lemma OneLongNeedle(w: Bytes)
    requires |w| >= 2
    ensures FilterShort([w], 2) == [w]
  {
    var none: seq<Bytes> := [];
    assert [w][..0] == none && none + [w] == [w];
  }

  lemma PairMatches(u: CaseTable, a: Regexp, b: Regexp, s: Bytes, i: int, m: int, j: int)
    requires 0 <= i <= m <= j <= |s| && Match(u, a, s, i, m) && Match(u, b, s, m, j)
    ensures MatchAll(u, [a, b], s, i, j)
  {
    assert [a, b][1..] == [b] && [b][1..] == [];
    assert MatchAll(u, [], s, j, j);
    assert MatchAll(u, [b], s, m, j);
  }

  lemma TripleMatches(u: CaseTable, a: Regexp, b: Regexp, c: Regexp, s: Bytes, i: int, m: int, m': int, j: int)
    requires 0 <= i <= m <= m' <= j <= |s|
    requires Match(u, a, s, i, m) && Match(u, b, s, m, m') && Match(u, c, s, m', j)
    ensures MatchAll(u, [a, b, c], s, i, j)
  {
    assert [a, b, c][1..] == [b, c];
    PairMatches(u, b, c, s, m, m', j);
  }

  // ---------------------------------------------------------------- anchors

  /** `\A`, a gap, then a word. */
  function Anchored(g: Regexp, runes: seq<int>): Regexp {
    Node(Concat([Node(BeginText), g, Node(Literal(runes))]))
  }

  lemma GapGivesNothing(u: CaseTable, g: Regexp)
    requires IsCharGap(g) || IsEmptyNode(g)
    ensures Extract(u, g, false) == NoLits && Plain(u, g)
    ensures !HasBeginAnchor(g) && !HasEndAnchor(g)
  {
    if g.op.Plus? {
      assert Extract(u, g.op.sub, false) == NoLits;
    }
  }

  lemma CollectOne(u: CaseTable, re: Regexp, rest: seq<Regexp>, all: seq<Bytes>, best: seq<Bytes>)
    ensures Collect(u, [re] + rest, false, all, best) ==
            match Extract(u, re, false)
            case AllOf(v) => Collect(u, rest, false, all + v, best)
            case AnyOf(v) => Collect(u, rest, false, all, if best == [] || |v| < |best| then v else best)
            case _ => Collect(u, rest, false, all, best)
  {
    assert ([re] + rest)[1..] == rest;
  }

  lemma CollectThree(u: CaseTable, a: Regexp, b: Regexp, c: Regexp, w: Bytes)
    requires Extract(u, b, false) == NoLits
    requires (Extract(u, a, false) == NoLits && Extract(u, c, false) == AllOf([w])) ||
             (Extract(u, a, false) == AllOf([w]) && Extract(u, c, false) == NoLits)
    ensures Collect(u, [a, b, c], false, [], []) == ([w], [])
  {
    assert [a, b, c] == [a] + ([b] + ([c] + []));
    CollectOne(u, a, [b] + ([c] + []), [], []);
    var none: seq<Bytes> := [];
    assert none + [w] == [w];
    CollectOne(u, b, [c] + [], [], []);
    CollectOne(u, b, [c] + [], [w], []);
    CollectOne(u, c, [], [], []);
    CollectOne(u, c, [], [w], []);
  }

  /** The length and ASCII guards only ever reject more. */
  lemma BuildKeepsTest(u: CaseTable, re: Regexp, lits: Lits, pf: Plan, s: Bytes)
    requires !HasFold(re) && Extract(u, re, false) == lits && !lits.NoLits?
    requires BuildFromLits(re, lits, false) == Some(pf)
    ensures Build(u, re).Some? && (Accepts(Build(u, re).value, s) ==> Accepts(pf, s))
  {
  }

  lemma OneMiss(u: CaseTable, re: Regexp, s: Bytes)
    requires Matches(u, re, s) && Build(u, re).Some? && !Accepts(Build(u, re).value, s)
    ensures !NeverMisses(u, re)
  {
  }

  predicate IsGap(g: Regexp) {
    IsCharGap(g) || IsEmptyNode(g)
  }

  /** A concatenation with a mandatory literal never reaches trie reconstruction. */
  predicate CollectedSomething(u: CaseTable, re: Regexp) {
    re.op.Concat? && Collect(u, re.op.subs, false, [], []).0 != []
  }

  ghost predicate Plain(u: CaseTable, re: Regexp) {
    !HasFold(re) && FoldNormal(u, re) && TrieSafe(u, re, false)
  }

  lemma TripleIsPlain(u: CaseTable, a: Regexp, b: Regexp, c: Regexp)
    requires Plain(u, a) && Plain(u, b) && Plain(u, c)
    requires CollectedSomething(u, Node(Concat([a, b, c])))
    ensures Plain(u, Node(Concat([a, b, c])))
  {
  }

  lemma BuildAllOne(re: Regexp, w: Bytes)
    requires |w| >= 2
    ensures BuildAll(re, [w], false) == BuildMultiNeedle([w], false, HasBeginAnchor(re), HasEndAnchor(re))
    ensures var none: seq<Bytes> := []; [w][1..] == none && [w][..0] == none
  {
    OneLongNeedle(w);
    var none: seq<Bytes> := [];
    assert [w][1..] == none && SortLongest(none) == none && [w] + none == [w];
    assert SortLongest([w]) == [w];
  }

  lemma ExtractTriple(u: CaseTable, a: Regexp, b: Regexp, c: Regexp, w: Bytes)
    requires Collect(u, [a, b, c], false, [], []) == ([w], [])
    ensures Extract(u, Node(Concat([a, b, c])), false) == AllOf([w])
  {
  }

  lemma WordExtract(u: CaseTable, runes: seq<int>)
    requires IsWord(runes) && |Text(u, runes)| >= 2
    ensures Extract(u, Node(Literal(runes)), false) == AllOf([Text(u, runes)])
    ensures RawLiteral(u, Node(Literal(runes)), false) == Text(u, runes)
  {
  }

  lemma AnchorsArePlain(u: CaseTable)
    ensures Plain(u, Node(BeginText)) && Plain(u, Node(EndText))
    ensures Extract(u, Node(BeginText), false) == NoLits && Extract(u, Node(EndText), false) == NoLits
    ensures HasBeginAnchor(Node(BeginText)) && HasEndAnchor(Node(EndText))
    ensures !HasEndAnchor(Node(BeginText)) && !HasBeginAnchor(Node(EndText))
  {
  }

  lemma WordIsPlain(u: CaseTable, runes: seq<int>)
    ensures Plain(u, Node(Literal(runes)))
    ensures !HasBeginAnchor(Node(Literal(runes))) && !HasEndAnchor(Node(Literal(runes)))
  {
  }

  lemma TripleAnchors(a: Regexp, b: Regexp, c: Regexp)
    ensures HasBeginAnchor(Node(Concat([a, b, c]))) == HasBeginAnchor(a)
    ensures HasEndAnchor(Node(Concat([a, b, c]))) == HasEndAnchor(c)
  {
  }

  lemma AnchoredExtract(u: CaseTable, g: Regexp, runes: seq<int>)
    requires IsGap(g) && IsWord(runes) && |Text(u, runes)| >= 2
    ensures Extract(u, Anchored(g, runes), false) == AllOf([Text(u, runes)])
    ensures Plain(u, Anchored(g, runes))
    ensures BuildAll(Anchored(g, runes), [Text(u, runes)], false) == Some(Needles(false, Text(u, runes), [], []))
  {
    hide Extract, Collect, Plain, HasBeginAnchor, HasEndAnchor, IsWord, LitString, BuildAll, IsCharGap;
    GapGivesNothing(u, g);
    WordIsPlain(u, runes);
    WordExtract(u, runes);
    AnchorsArePlain(u);
    CollectThree(u, Node(BeginText), g, Node(Literal(runes)), Text(u, runes));
    ExtractTriple(u, Node(BeginText), g, Node(Literal(runes)), Text(u, runes));
    TripleIsPlain(u, Node(BeginText), g, Node(Literal(runes)));
    BuildAllOne(Anchored(g, runes), Text(u, runes));
    TripleAnchors(Node(BeginText), g, Node(Literal(runes)));
  }

  lemma AnchoredSound(u: CaseTable, g: Regexp, runes: seq<int>)
    requires u.Valid() && IsEmptyNode(g) && IsWord(runes) && |Text(u, runes)| >= 2
    ensures NeverMisses(u, Anchored(g, runes))
  {
    hide Admissible;
    AnchoredIsAdmissible(u, g, runes);
    PrefilterSound(u, Anchored(g, runes));
  }

  lemma AnchoredIsAdmissible(u: CaseTable, g: Regexp, runes: seq<int>)
    requires u.Valid() && IsEmptyNode(g) && IsWord(runes) && |Text(u, runes)| >= 2
    ensures Admissible(u, Anchored(g, runes))
  {
    hide Extract, LitString, IsWord, FilterShort, RawLiteral;
    var re := Anchored(g, runes);
    AnchoredExtract(u, g, runes);
    OneLongNeedle(Text(u, runes));
    LeadOfThree(u, Node(BeginText), g, Node(Literal(runes)));
    WordIsPlain(u, runes);
    WordExtract(u, runes);
    TripleAnchors(Node(BeginText), g, Node(Literal(runes)));
    assert LeadLiteral(u, re, false) == Text(u, runes);
    hide HasBeginAnchor, HasEndAnchor, TrailLiteral, LeadLiteral;
    assert NeedlesAtAnchors(u, re, [Text(u, runes)], false);
    PrefilterSound(u, re);
  }

  lemma AnchoredMisses(u: CaseTable, g: Regexp, runes: seq<int>, c: byte)
    requires IsCharGap(g) && IsWord(runes) && |Text(u, runes)| >= 2 && TakesByte(g, c) && c != Text(u, runes)[0]
    ensures !NeverMisses(u, Anchored(g, runes))
  {
    hide Extract, LitString, IsWord, MatchAll, MatchRunes, FilterShort, BuildAll, IsCharGap, TakesByte;
    var re := Anchored(g, runes);
    var w := Text(u, runes);
    var s := [c] + w;
    GapTakesOne(u, g, s, 0);
    assert s[1..|s|] == w;
    WordMatchesItself(u, runes, s, 1, |s|);
    TripleMatches(u, Node(BeginText), g, Node(Literal(runes)), s, 0, 0, 1, |s|);
    assert Match(u, re, s, 0, |s|);
    AnchoredExtract(u, g, runes);
    BuildKeepsTest(u, re, AllOf([w]), Needles(false, w, [], []), s);
    assert s[0] != w[0] && !HasPrefix(false, s, w);
    OneMiss(u, re, s);
  }

  /** The literal behind `\A` is a right prefix test exactly when nothing stands between them. A gap is a character
      that need not be the word's first one, alone or with a quantifier. */
  lemma AnchoredGapExact(u: CaseTable, g: Regexp, runes: seq<int>)
    requires u.Valid() && IsGap(g) && IsWord(runes) && |Text(u, runes)| >= 2
    requires IsEmptyNode(g) || exists c: byte :: TakesByte(g, c) && c != Text(u, runes)[0]
    ensures NeverMisses(u, Anchored(g, runes)) <==> IsEmptyNode(g)
  {
    if IsEmptyNode(g) {
      AnchoredSound(u, g, runes);
    } else {
      var c: byte :| TakesByte(g, c) && c != Text(u, runes)[0];
      AnchoredMisses(u, g, runes, c);
    }
  }

  /** A word, a gap, then `\z`. */
  function AnchoredEnd(g: Regexp, runes: seq<int>): Regexp {
    Node(Concat([Node(Literal(runes)), g, Node(EndText)]))
  }

  lemma AnchoredEndExtract(u: CaseTable, g: Regexp, runes: seq<int>)
    requires IsGap(g) && IsWord(runes) && |Text(u, runes)| >= 2
    ensures Extract(u, AnchoredEnd(g, runes), false) == AllOf([Text(u, runes)])
    ensures Plain(u, AnchoredEnd(g, runes))
    ensures BuildAll(AnchoredEnd(g, runes), [Text(u, runes)], false) == Some(Needles(false, [], Text(u, runes), []))
  {
    hide Extract, Collect, Plain, HasBeginAnchor, HasEndAnchor, IsWord, LitString, BuildAll, IsCharGap;
    GapGivesNothing(u, g);
    WordIsPlain(u, runes);
    WordExtract(u, runes);
    AnchorsArePlain(u);
    CollectThree(u, Node(Literal(runes)), g, Node(EndText), Text(u, runes));
    ExtractTriple(u, Node(Literal(runes)), g, Node(EndText), Text(u, runes));
    TripleIsPlain(u, Node(Literal(runes)), g, Node(EndText));
    BuildAllOne(AnchoredEnd(g, runes), Text(u, runes));
    TripleAnchors(Node(Literal(runes)), g, Node(EndText));
  }

  lemma TrailOfThree(u: CaseTable, l: Regexp, g: Regexp, z: Regexp)
    requires !IsEmptyWidth(l) && IsEmptyWidth(g) && IsEmptyWidth(z)
    ensures TrailOfAll(u, [l, g, z], false) == TrailLiteral(u, l, false)
  {
    assert [l, g, z][..2] == [l, g] && [l, g][..1] == [l];
    assert TrailOfAll(u, [l], false) == TrailLiteral(u, l, false);
    assert TrailOfAll(u, [l, g], false) == TrailLiteral(u, l, false);
  }

  lemma LeadOfThree(u: CaseTable, a: Regexp, g: Regexp, l: Regexp)
    requires IsEmptyWidth(a) && IsEmptyWidth(g) && !IsEmptyWidth(l)
    ensures LeadOfAll(u, [a, g, l], false) == LeadLiteral(u, l, false)
  {
    assert [a, g, l][1..] == [g, l] && [g, l][1..] == [l];
    assert LeadOfAll(u, [l], false) == LeadLiteral(u, l, false);
    assert LeadOfAll(u, [g, l], false) == LeadLiteral(u, l, false);
  }

  lemma AnchoredEndSound(u: CaseTable, g: Regexp, runes: seq<int>)
    requires u.Valid() && IsEmptyNode(g) && IsWord(runes) && |Text(u, runes)| >= 2
    ensures NeverMisses(u, AnchoredEnd(g, runes))
  {
    hide Admissible;
    AnchoredEndIsAdmissible(u, g, runes);
    PrefilterSound(u, AnchoredEnd(g, runes));
  }

  lemma AnchoredEndIsAdmissible(u: CaseTable, g: Regexp, runes: seq<int>)
    requires u.Valid() && IsEmptyNode(g) && IsWord(runes) && |Text(u, runes)| >= 2
    ensures Admissible(u, AnchoredEnd(g, runes))
  {
    hide Extract, LitString, IsWord, FilterShort, RawLiteral;
    var re := AnchoredEnd(g, runes);
    AnchoredEndExtract(u, g, runes);
    OneLongNeedle(Text(u, runes));
    TrailOfThree(u, Node(Literal(runes)), g, Node(EndText));
    WordIsPlain(u, runes);
    WordExtract(u, runes);
    TripleAnchors(Node(Literal(runes)), g, Node(EndText));
    assert TrailLiteral(u, re, false) == Text(u, runes);
    hide HasBeginAnchor, HasEndAnchor, TrailLiteral, LeadLiteral;
    assert NeedlesAtAnchors(u, re, [Text(u, runes)], false);
    PrefilterSound(u, re);
  }

  lemma WrongLastByte(w: Bytes, c: byte)
    requires w != [] && c != w[|w| - 1]
    ensures !HasSuffix(false, w + [c], w)
  {
    var n := |w|;
    assert (w + [c])[1..1 + n][n - 1] == c;
  }

  lemma AnchoredEndMatches(u: CaseTable, g: Regexp, runes: seq<int>, c: byte)
    requires IsCharGap(g) && IsWord(runes) && TakesByte(g, c)
    ensures Matches(u, AnchoredEnd(g, runes), Text(u, runes) + [c])
  {
    var s := Text(u, runes) + [c];
    var n := |s| - 1;
    GapTakesOne(u, g, s, n);
    assert s[0..n] == Text(u, runes);
    WordMatchesItself(u, runes, s, 0, n);
    TripleMatches(u, Node(Literal(runes)), g, Node(EndText), s, 0, n, n + 1, n + 1);
    assert Match(u, AnchoredEnd(g, runes), s, 0, n + 1);
  }

  lemma AnchoredEndMisses(u: CaseTable, g: Regexp, runes: seq<int>, c: byte)
    requires IsCharGap(g) && IsWord(runes) && |Text(u, runes)| >= 2
    requires TakesByte(g, c) && c != Text(u, runes)[|Text(u, runes)| - 1]
    ensures !NeverMisses(u, AnchoredEnd(g, runes))
  {
    var re := AnchoredEnd(g, runes);
    var w := Text(u, runes);
    var s := w + [c];
    AnchoredEndMatches(u, g, runes, c);
    AnchoredEndExtract(u, g, runes);
    BuildKeepsTest(u, re, AllOf([w]), Needles(false, [], w, []), s);
    WrongLastByte(w, c);
    OneMiss(u, re, s);
  }

  /** The literal before `\z` is a right suffix test exactly when nothing stands between them. */
  lemma AnchoredEndGapExact(u: CaseTable, g: Regexp, runes: seq<int>)
    requires u.Valid() && IsGap(g) && IsWord(runes) && |Text(u, runes)| >= 2
    requires IsEmptyNode(g) || exists c: byte :: TakesByte(g, c) && c != Text(u, runes)[|Text(u, runes)| - 1]
    ensures NeverMisses(u, AnchoredEnd(g, runes)) <==> IsEmptyNode(g)
  {
    if IsEmptyNode(g) {
      AnchoredEndSound(u, g, runes);
    } else {
      var c: byte :| TakesByte(g, c) && c != Text(u, runes)[|Text(u, runes)| - 1];
      AnchoredEndMisses(u, g, runes, c);
    }
  }

  // ---------------------------------------------------------------- factored alternations

  /** One letter, then either a gap and a word, or another word: what `a(?:.*w|x)` parses to. */
  function Factored(a: byte, g: Regexp, w: seq<int>, x: seq<int>): Regexp {
    Node(Concat([Node(Literal([a])), Node(Alternate([Node(Concat([g, Node(Literal(w))])), Node(Literal(x))]))]))
  }

  function Branches(g: Regexp, w: seq<int>, x: seq<int>): seq<Regexp> {
    [Node(Concat([g, Node(Literal(w))])), Node(Literal(x))]
  }

  /** The gap branch gives its word, with or without the gap. */
  lemma GapBranch(u: CaseTable, g: Regexp, w: seq<int>)
    requires IsGap(g) && IsWord(w) && |Text(u, w)| >= 2
    ensures var re := Node(Concat([g, Node(Literal(w))]));
            Extract(u, re, false) == AllOf([Text(u, w)]) && RawSuffixes(u, re, false) == [Text(u, w)] && Plain(u, re)
  {
    GapGivesNothing(u, g);
    WordIsPlain(u, w);
    GapExtract(u, g, w);
    hide Extract, Collect, IsCharGap, IsWord, LitString;
  }

  lemma GapExtract(u: CaseTable, g: Regexp, w: seq<int>)
    requires IsGap(g) && IsWord(w) && |Text(u, w)| >= 2
    ensures var re := Node(Concat([g, Node(Literal(w))]));
            Extract(u, re, false) == AllOf([Text(u, w)]) && CollectedSomething(u, re)
  {
    GapGivesNothing(u, g);
    WordExtract(u, w);
    hide IsCharGap, IsWord, LitString, TrieReconstruct;
    assert [g, Node(Literal(w))] == [g] + ([Node(Literal(w))] + []);
    CollectOne(u, g, [Node(Literal(w))] + [], [], []);
    CollectOne(u, Node(Literal(w)), [], [], []);
    var none: seq<Bytes> := [];
    assert none + [Text(u, w)] == [Text(u, w)];
  }

  lemma AlternationLits(u: CaseTable, g: Regexp, w: seq<int>, x: seq<int>)
    requires IsGap(g) && IsWord(w) && |Text(u, w)| >= 2 && IsWord(x) && |Text(u, x)| >= 2
    ensures var alt := Node(Alternate(Branches(g, w, x)));
            Extract(u, alt, false) == AnyOf([Text(u, w), Text(u, x)]) &&
            RawSuffixes(u, alt, false) == [Text(u, w), Text(u, x)] && Plain(u, alt)
  {
    hide IsWord, IsCharGap, LitString, Collect, TrieReconstruct;
    var bs := Branches(g, w, x);
    GapBranch(u, g, w);
    WordIsPlain(u, x);
    WordExtract(u, x);
    assert bs[1..] == [Node(Literal(x))] && [Node(Literal(x))][1..] == [];
    assert BranchLits(u, bs[1..], false) == [Text(u, x)];
    assert BranchLits(u, bs, false) == [Text(u, w), Text(u, x)];
    assert AllSuffixes(u, bs[1..], false) == [Text(u, x)];
    assert AllSuffixes(u, bs, false) == [Text(u, w), Text(u, x)];
  }

  function Words(u: CaseTable, a: byte, w: seq<int>, x: seq<int>): seq<Bytes> {
    [[a] + Text(u, w), [a] + Text(u, x)]
  }

  lemma FactoredBuild(u: CaseTable, a: byte, g: Regexp, w: seq<int>, x: seq<int>)
    requires a < 128 && IsGap(g) && IsWord(w) && |Text(u, w)| >= 2 && IsWord(x) && |Text(u, x)| >= 2
    ensures var re := Factored(a, g, w, x);
            !HasFold(re) && FoldNormal(u, re) && Extract(u, re, false) == AnyOf(Words(u, a, w, x)) &&
            BuildFromLits(re, Extract(u, re, false), false) == Some(OneOf(false, Words(u, a, w, x)))
  {
    hide Extract, LitString, IsWord, IsCharGap, RawSuffixes;
    AlternationLits(u, g, w, x);
    WordIsPlain(u, [a as int]);
    FactoredExtract(u, a, g, w, x);
  }

  lemma FactoredExtract(u: CaseTable, a: byte, g: Regexp, w: seq<int>, x: seq<int>)
    requires a < 128 && IsGap(g) && IsWord(w) && |Text(u, w)| >= 2 && IsWord(x) && |Text(u, x)| >= 2
    ensures Extract(u, Factored(a, g, w, x), false) == AnyOf(Words(u, a, w, x))
  {
    var l, alt := Node(Literal([a as int])), Node(Alternate(Branches(g, w, x)));
    var subs := [l, alt];
    assert Factored(a, g, w, x) == Node(Concat(subs));
    hide Factored, Extract, Collect, LitString, IsWord, IsCharGap, RawSuffixes, TrieReconstruct, Branches;
    AlternationLits(u, g, w, x);
    LetterRaw(u, a);
    var ws := [Text(u, w), Text(u, x)];
    assert subs == [l] + ([alt] + []);
    CollectOne(u, l, [alt] + [], [], []);
    CollectOne(u, alt, [], [], []);
    CollectNothing(u, []);
    CollectNothing(u, ws);
    FactoredTrie(u, a, g, w, x);
    ExtractPair(u, l, alt, Words(u, a, w, x));
  }

  lemma CollectNothing(u: CaseTable, best: seq<Bytes>)
    ensures Collect(u, [], false, [], best) == ([], best)
  {
  }

  lemma ExtractPair(u: CaseTable, l: Regexp, alt: Regexp, trie: seq<Bytes>)
    requires Collect(u, [l, alt], false, [], []).0 == [] && TrieReconstruct(u, [l, alt], false) == trie != []
    ensures Extract(u, Node(Concat([l, alt])), false) == AnyOf(trie)
  {
  }

  lemma FactoredTrie(u: CaseTable, a: byte, g: Regexp, w: seq<int>, x: seq<int>)
    requires a < 128 && IsGap(g) && IsWord(w) && |Text(u, w)| >= 2 && IsWord(x) && |Text(u, x)| >= 2
    ensures TrieReconstruct(u, [Node(Literal([a as int])), Node(Alternate(Branches(g, w, x)))], false) == Words(u, a, w, x)
  {
    AlternationLits(u, g, w, x);
    LetterRaw(u, a);
    TrieOf(u, Node(Literal([a as int])), Node(Alternate(Branches(g, w, x))), [a], [Text(u, w), Text(u, x)]);
    hide TrieReconstruct, LitString, Prefixed;
    PrefixedPair(a, Text(u, w), Text(u, x));
  }

  lemma PrefixedPair(a: byte, w: Bytes, x: Bytes)
    requires w != [] && x != []
    ensures Prefixed([a], [w, x]) == [[a] + w, [a] + x]
  {
    assert [w, x][1..] == [x] && [x][1..] == [];
    assert Prefixed([a], [x]) == [[a] + x];
  }

  /** A match of one of the branches. */
  lemma BranchMatch(u: CaseTable, g: Regexp, w: seq<int>, x: seq<int>, s: Bytes, m: int, j: int)
    requires u.Valid() && IsWord(w) && IsWord(x)
    requires 0 <= m <= j <= |s| && Match(u, Node(Alternate(Branches(g, w, x))), s, m, j)
    ensures OccursIn(Text(u, w), s, m, j) || (j == m + |Text(u, x)| && At(Text(u, x), s, m))
  {
    var k :| 0 <= k < 2 && Match(u, Branches(g, w, x)[k], s, m, j);
    if k == 0 {
      var m' := TwoChildren(u, [g, Node(Literal(w))], s, m, j);
      WordText(u, w, s, m', j);
    } else {
      WordText(u, x, s, m, j);
    }
  }

  lemma FactoredPieces(u: CaseTable, a: byte, g: Regexp, w: seq<int>, x: seq<int>, s: Bytes, i: int, j: int)
    returns (m: int)
    requires 0 <= i <= j <= |s| && Match(u, Factored(a, g, w, x), s, i, j)
    ensures i <= m <= j && Match(u, Node(Literal([a as int])), s, i, m) && Match(u, Node(Alternate(Branches(g, w, x))), s, m, j)
  {
    m := TwoChildren(u, [Node(Literal([a as int])), Node(Alternate(Branches(g, w, x)))], s, i, j);
  }

  /** A match of the factored regex: the letter, then one of the branches. */
  lemma FactoredMatch(u: CaseTable, a: byte, g: Regexp, w: seq<int>, x: seq<int>, s: Bytes, i: int, j: int)
    requires u.Valid() && a < 128 && IsWord(w) && IsWord(x)
    requires 0 <= i <= j <= |s| && Match(u, Factored(a, g, w, x), s, i, j)
    ensures OccursIn(Text(u, w), s, i, j) || OccursIn([a] + Text(u, x), s, i, j)
  {
    hide LitString, Branches;
    var m := FactoredPieces(u, a, g, w, x, s, i, j);
    hide Match, Factored;
    WordText(u, [a as int], s, i, m);
    LetterText(u, a);
    BranchMatch(u, g, w, x, s, m, j);
    if j == m + |Text(u, x)| && At(Text(u, x), s, m) {
      Glue([a], Text(u, x), s, i);
    }
  }

  lemma WordText(u: CaseTable, w: seq<int>, s: Bytes, i: int, j: int)
    requires u.Valid() && IsWord(w) && 0 <= i <= j <= |s| && Match(u, Node(Literal(w)), s, i, j)
    ensures j == i + |Text(u, w)| && At(Text(u, w), s, i)
  {
    LiteralText(u, w, false, false, s, i, j);
    assert s[i..j] == Text(u, w);
  }

  lemma LetterText(u: CaseTable, a: byte)
    requires a < 128
    ensures Text(u, [a as int]) == [a]
  {
    var none: seq<int> := [];
    assert [a as int][1..] == none && Text(u, none) == [];
    assert Encode(a) == [a];
  }

  lemma LetterRaw(u: CaseTable, a: byte)
    requires a < 128
    ensures RawLiteral(u, Node(Literal([a as int])), false) == [a] && Extract(u, Node(Literal([a as int])), false) == NoLits
  {
    LetterText(u, a);
  }

  lemma OccursInside(v: Bytes, w: Bytes, t: Bytes, i: int, j: int)
    requires Occurs(v, w) && OccursIn(w, t, i, j)
    ensures OccursIn(v, t, i, j)
  {
    var p :| 0 <= p && p + |v| <= |w| && At(v, w, p);
    var q :| i <= q && q + |w| <= j && At(w, t, q);
    Nest(v, w, t, p, q);
  }

  lemma FactoredSound(u: CaseTable, a: byte, g: Regexp, w: seq<int>, x: seq<int>)
    requires u.Valid() && a < 128 && IsGap(g) && IsWord(w) && |Text(u, w)| >= 2 && IsWord(x) && |Text(u, x)| >= 2
    requires IsEmptyNode(g) || Occurs([a] + Text(u, x), Text(u, w))
    ensures NeverMisses(u, Factored(a, g, w, x))
  {
    hide Extract, Factored, LitString, IsWord, IsCharGap, Occurs, OccursIn, Admissible, BuildFromLits, Match, MinLen;
    var re := Factored(a, g, w, x);
    FactoredBuild(u, a, g, w, x);
    if IsEmptyNode(g) {
      FactoredIsAdmissible(u, a, g, w, x);
      PrefilterSound(u, re);
    } else {
      forall s: Bytes | Matches(u, re, s) ensures Build(u, re).Some? ==> Accepts(Build(u, re).value, s) {
        var i, j :| 0 <= i <= j <= |s| && Match(u, re, s, i, j);
        SecondWordOccurs(u, a, g, w, x, s, i, j);
        MinLenIsLowerBound(u, re, s, i, j);
      }
    }
  }

  lemma SecondWordOccurs(u: CaseTable, a: byte, g: Regexp, w: seq<int>, x: seq<int>, s: Bytes, i: int, j: int)
    requires u.Valid() && a < 128 && IsWord(w) && IsWord(x) && Occurs([a] + Text(u, x), Text(u, w))
    requires 0 <= i <= j <= |s| && Match(u, Factored(a, g, w, x), s, i, j)
    ensures Accepts(OneOf(false, Words(u, a, w, x)), s)
  {
    FactoredMatch(u, a, g, w, x, s, i, j);
    hide Match, LitString, IsWord;
    if OccursIn(Text(u, w), s, i, j) {
      OccursInside([a] + Text(u, x), Text(u, w), s, i, j);
    }
    OccurrencePasses(false, s, [a] + Text(u, x), i, j);
    assert Occurs(Words(u, a, w, x)[1], s);
  }

  lemma FactoredIsAdmissible(u: CaseTable, a: byte, g: Regexp, w: seq<int>, x: seq<int>)
    requires u.Valid() && a < 128 && IsEmptyNode(g)
    requires IsWord(w) && |Text(u, w)| >= 2 && IsWord(x) && |Text(u, x)| >= 2
    ensures Admissible(u, Factored(a, g, w, x))
  {
    hide Extract, LitString, IsWord, BuildFromLits, RawSuffixes, MinLen;
    var re := Factored(a, g, w, x);
    var alt := Node(Alternate(Branches(g, w, x)));
    FactoredBuild(u, a, g, w, x);
    AlternationLits(u, g, w, x);
    BranchesLed(u, g, w, x);
    WordIsPlain(u, [a as int]);
    assert TrieSafe(u, re, false) by {
      assert TrieSafe(u, alt, false) && TrieSafe(u, Node(Literal([a as int])), false);
      hide LedSuffixes;
    }
    hide TrieSafe, FoldNormal;
  }

  lemma BranchesLed(u: CaseTable, g: Regexp, w: seq<int>, x: seq<int>)
    requires IsEmptyNode(g) && IsWord(w) && |Text(u, w)| >= 2
    ensures LedSuffixes(u, Node(Alternate(Branches(g, w, x))), false)
  {
    GapBranch(u, g, w);
    hide Extract, LitString;
    var l := Node(Literal(w));
    assert [g, l][1..] == [l];
    assert LeadOfAll(u, [l], false) == Text(u, w);
    assert LeadOfAll(u, [g, l], false) == Text(u, w);
    assert LedSuffixes(u, Branches(g, w, x)[0], false);
    assert LedSuffixes(u, Branches(g, w, x)[1], false);
  }

  lemma FactoredMisses(u: CaseTable, a: byte, g: Regexp, w: seq<int>, x: seq<int>, c: byte)
    requires u.Valid() && a < 128 && IsCharGap(g) && IsWord(w) && |Text(u, w)| >= 2 && IsWord(x) && |Text(u, x)| >= 2
    requires !Occurs([a] + Text(u, x), Text(u, w)) && TakesByte(g, c) && c !in [a, Text(u, w)[0], Text(u, x)[0]]
    ensures !NeverMisses(u, Factored(a, g, w, x))
  {
    var re := Factored(a, g, w, x);
    var s := [a, c] + Text(u, w);
    FactoredMatches(u, a, g, w, x, c);
    FactoredBuild(u, a, g, w, x);
    BuildKeepsTest(u, re, AnyOf(Words(u, a, w, x)), OneOf(false, Words(u, a, w, x)), s);
    NoWordOccurs(a, c, Text(u, w), Text(u, x));
    OneMiss(u, re, s);
  }

  lemma FactoredMatches(u: CaseTable, a: byte, g: Regexp, w: seq<int>, x: seq<int>, c: byte)
    requires a < 128 && IsCharGap(g) && IsWord(w) && TakesByte(g, c)
    ensures Matches(u, Factored(a, g, w, x), [a, c] + Text(u, w))
  {
    hide LitString, IsCharGap, TakesByte, MatchRunes, MatchAll;
    var s := [a, c] + Text(u, w);
    var l, alt := Node(Literal([a as int])), Node(Alternate(Branches(g, w, x)));
    assert s[0..1] == [a];
    LetterText(u, a);
    WordMatchesItself(u, [a as int], s, 0, 1);
    GapTakesOne(u, g, s, 1);
    assert s[2..|s|] == Text(u, w);
    WordMatchesItself(u, w, s, 2, |s|);
    PairMatches(u, g, Node(Literal(w)), s, 1, 2, |s|);
    assert Match(u, Branches(g, w, x)[0], s, 1, |s|);
    assert Match(u, alt, s, 1, |s|);
    PairMatches(u, l, alt, s, 0, 1, |s|);
    assert Match(u, Factored(a, g, w, x), s, 0, |s|);
  }

  /** Behind `a` stands `c`, so a word starting with `a` can only stand behind both. */
  lemma StandsBehind(a: byte, c: byte, y: Bytes, w: Bytes, p: int)
    requires y != [] && c != a && c != y[0] && At([a] + y, [a, c] + w, p)
    ensures p >= 2 && At([a] + y, w, p - 2)
  {
    var s, v := [a, c] + w, [a] + y;
    assert s[p] == s[p..p + |v|][0] == a;
    assert s[p + 1] == s[p..p + |v|][1] == y[0];
    assert p >= 2;
    forall k | 0 <= k < |v| ensures w[p - 2 + k] == v[k] {
      assert s[p..p + |v|][k] == s[p + k] == w[p - 2 + k];
    }
  }

  lemma NoWordOccurs(a: byte, c: byte, w: Bytes, x: Bytes)
    requires w != [] && x != [] && c != a && c != w[0] && c != x[0] && !Occurs([a] + x, w)
    ensures !Occurs([a] + w, [a, c] + w) && !Occurs([a] + x, [a, c] + w)
  {
    var s := [a, c] + w;
    if Occurs([a] + w, s) {
      var p :| At([a] + w, s, p);
      StandsBehind(a, c, w, w, p);
    }
    if Occurs([a] + x, s) {
      var p :| At([a] + x, s, p);
      StandsBehind(a, c, x, w, p);
    }
  }

  /** The rebuilt words are right exactly when the gap is empty, or its word already holds the other one. */
  lemma FactoredGapExact(u: CaseTable, a: byte, g: Regexp, w: seq<int>, x: seq<int>)
    requires u.Valid() && a < 128 && IsGap(g)
    requires IsWord(w) && |Text(u, w)| >= 2 && IsWord(x) && |Text(u, x)| >= 2
    requires IsEmptyNode(g) || exists c: byte :: TakesByte(g, c) && c !in [a, Text(u, w)[0], Text(u, x)[0]]
    ensures NeverMisses(u, Factored(a, g, w, x)) <==> IsEmptyNode(g) || Occurs([a] + Text(u, x), Text(u, w))
  {
    if IsEmptyNode(g) || Occurs([a] + Text(u, x), Text(u, w)) {
      FactoredSound(u, a, g, w, x);
    } else {
      var c: byte :| TakesByte(g, c) && c !in [a, Text(u, w)[0], Text(u, x)[0]];
      FactoredMisses(u, a, g, w, x, c);
    }
  }

  // ---------------------------------------------------------------- the parser's normal form

  /** A folding literal that stored U+017F (long s) instead of its orbit's S would reject the matching "ss". */
  lemma FoldNormalNeeded(u: CaseTable)
    requires u.Valid() && u.orbit(0x17F) == 'S' as int && u.lower(0x17F) == 0x17F
    ensures var re := Regexp(Literal([0x17F, 0x17F]), true);
            TrieSafe(u, re, HasFold(re)) && AnchorSafe(u, re, HasFold(re)) && !FoldNormal(u, re) && !NeverMisses(u, re)
  {
    var runes := [0x17F, 0x17F];
    var re := Regexp(Literal(runes), true);
    var s: Bytes := ['s' as int, 's' as int];
    LongSMatches(u);
    assert u.orbit(runes[0]) != runes[0];
    LongSBuild(u);
    var pf :| Build(u, re) == Some(AsciiOnly(Both(AtLeast(4), pf)));
    assert !Accepts(AtLeast(4), s);
    hide Extract, MinLen, LitString, Build, Matches;
    OneMiss(u, re, s);
  }

  lemma LongSBuild(u: CaseTable)
    requires u.lower(0x17F) == 0x17F
    ensures var re := Regexp(Literal([0x17F, 0x17F]), true);
            && Extract(u, re, true).AllOf?
            && (exists pf :: Build(u, re) == Some(AsciiOnly(Both(AtLeast(4), pf))))
  {
    var runes := [0x17F, 0x17F];
    var re := Regexp(Literal(runes), true);
    assert runes[1..] == [0x17F] && [0x17F][1..] == [];
    var w := LitString(u, runes, true);
    assert LitString(u, runes[1..], true) == [0xC5, 0xBF];
    assert w == [0xC5, 0xBF, 0xC5, 0xBF];
    assert Extract(u, re, true) == AllOf([w]);
    BuildAllOne'(re, w);
    assert MinLen(re) == 4;
    hide Extract, LitString, MinLen, BuildAll;
    var pf := BuildFromLits(re, AllOf([w]), true).value;
    assert Build(u, re) == Some(AsciiOnly(Both(AtLeast(4), pf)));
  }

  lemma LongSMatches(u: CaseTable)
    requires u.Valid() && u.orbit(0x17F) == 'S' as int
    ensures Matches(u, Regexp(Literal([0x17F, 0x17F]), true), ['s' as int, 's' as int])
  {
    var runes := [0x17F, 0x17F];
    var s: Bytes := ['s' as int, 's' as int];
    assert runes[1..] == [0x17F] && [0x17F][1..] == [];
    assert Decode(s[0..]) == ('s' as int, 1) && Decode(s[1..]) == ('s' as int, 1);
    assert MatchRunes(u, runes[1..][1..], true, s, 2, 2);
    assert MatchRunes(u, runes[1..], true, s, 1, 2);
    assert Match(u, Regexp(Literal(runes), true), s, 0, 2);
  }

  lemma BuildAllOne'(re: Regexp, w: Bytes)
    requires |w| >= 2
    ensures FilterShort([w], 2) == [w] && BuildAll(re, [w], true).Some?
  {
    OneLongNeedle(w);
    SortLongestMembers([w]);
    assert w in SortLongest([w]);
  }
}
