/** Every match of a regex really contains the literals extracted from it. */
module LiteralsSound {
  import opened Bytes
  import opened Utf8
  import opened Regex
  import opened Literals

  /** The setting of one evaluation: a parsed regex, the folding mode chosen for it, an input. */
  ghost predicate Fits(u: CaseTable, re: Regexp, ci: bool, s: Bytes) {
    u.Valid() && FoldNormal(u, re) && (HasFold(re) ==> ci) && (ci ==> IsAscii(s))
  }

  ghost predicate AllFit(u: CaseTable, subs: seq<Regexp>, ci: bool, s: Bytes) {
    forall k :: 0 <= k < |subs| ==> Fits(u, subs[k], ci, s)
  }

  lemma SubsFit(u: CaseTable, re: Regexp, ci: bool, s: Bytes)
    requires Fits(u, re, ci, s)
    ensures re.op.Capture? ==> Fits(u, re.op.sub, ci, s)
    ensures re.op.Plus? ==> Fits(u, re.op.sub, ci, s)
    ensures re.op.Repeat? ==> Fits(u, re.op.sub, ci, s)
    ensures re.op.Concat? ==> AllFit(u, re.op.subs, ci, s)
    ensures re.op.Alternate? ==> AllFit(u, re.op.subs, ci, s)
  {
  }

  ghost predicate AllOccur(ws: seq<Bytes>, t: Bytes, i: int, j: int) {
    forall k :: 0 <= k < |ws| ==> OccursIn(ws[k], t, i, j)
  }

  ghost predicate SomeOccurs(ws: seq<Bytes>, t: Bytes, i: int, j: int) {
    exists k :: 0 <= k < |ws| && OccursIn(ws[k], t, i, j)
  }

  /** Some string of `ws` stands at `i` and ends by `j`. */
  ghost predicate SomeLeads(ws: seq<Bytes>, t: Bytes, i: int, j: int) {
    exists k :: 0 <= k < |ws| && i + |ws[k]| <= j && At(ws[k], t, i)
  }

  /** `w` starts, and `w` ends, the stretch from `i` to `j`. */
  predicate Leads(w: Bytes, t: Bytes, i: int, j: int) {
    i + |w| <= j && At(w, t, i)
  }

  predicate Trails(w: Bytes, t: Bytes, i: int, j: int) {
    i <= j - |w| && At(w, t, j - |w|)
  }

  /** What an extraction result promises about a stretch of text. */
  ghost predicate Holds(lits: Lits, t: Bytes, i: int, j: int) {
    match lits
    case NoLits => true
    case AllOf(all) => AllOccur(all, t, i, j)
    case AnyOf(any) => SomeOccurs(any, t, i, j)
    case BothOf(all, any) => AllOccur(all, t, i, j) && SomeOccurs(any, t, i, j)
  }

  lemma Widen(ws: seq<Bytes>, t: Bytes, i: int, j: int, i': int, j': int)
    requires i' <= i && j <= j'
    ensures AllOccur(ws, t, i, j) ==> AllOccur(ws, t, i', j')
    ensures SomeOccurs(ws, t, i, j) ==> SomeOccurs(ws, t, i', j')
  {
    assert forall w :: OccursIn(w, t, i, j) ==> OccursIn(w, t, i', j');
    if SomeOccurs(ws, t, i, j) {
      var k :| 0 <= k < |ws| && OccursIn(ws[k], t, i, j);
      assert OccursIn(ws[k], t, i', j');
    }
  }

  lemma WidenLits(lits: Lits, t: Bytes, i: int, j: int, i': int, j': int)
    requires i' <= i && j <= j' && Holds(lits, t, i, j)
    ensures Holds(lits, t, i', j')
  {
    Widen(if lits.AllOf? || lits.BothOf? then lits.all else [], t, i, j, i', j');
    Widen(if lits.AnyOf? || lits.BothOf? then lits.any else [], t, i, j, i', j');
  }

  lemma AppendAll(v: seq<Bytes>, w: seq<Bytes>, t: Bytes, i: int, j: int)
    requires AllOccur(v, t, i, j) && AllOccur(w, t, i, j)
    ensures AllOccur(v + w, t, i, j)
  {
    forall k | 0 <= k < |v + w| ensures OccursIn((v + w)[k], t, i, j) {
      if k < |v| { assert (v + w)[k] == v[k]; } else { assert (v + w)[k] == w[k - |v|]; }
    }
  }

  lemma AppendSome(v: seq<Bytes>, w: seq<Bytes>, t: Bytes, i: int, j: int)
    requires SomeOccurs(v, t, i, j) || SomeOccurs(w, t, i, j)
    ensures SomeOccurs(v + w, t, i, j)
  {
    if SomeOccurs(v, t, i, j) {
      var k :| 0 <= k < |v| && OccursIn(v[k], t, i, j);
      assert (v + w)[k] == v[k];
    } else {
      var k :| 0 <= k < |w| && OccursIn(w[k], t, i, j);
      assert (v + w)[|v| + k] == w[k];
    }
  }

  lemma AppendLeads(v: seq<Bytes>, w: seq<Bytes>, t: Bytes, i: int, j: int)
    requires SomeLeads(v, t, i, j) || SomeLeads(w, t, i, j)
    ensures SomeLeads(v + w, t, i, j)
  {
    if SomeLeads(v, t, i, j) {
      var k :| 0 <= k < |v| && i + |v[k]| <= j && At(v[k], t, i);
      assert (v + w)[k] == v[k];
    } else {
      var k :| 0 <= k < |w| && i + |w[k]| <= j && At(w[k], t, i);
      assert (v + w)[|v| + k] == w[k];
    }
  }

  // ---------------------------------------------------------------- one literal

  lemma AsciiDecodes(s: Bytes, i: int)
    requires IsAscii(s) && 0 <= i < |s|
    ensures Decode(s[i..]) == (s[i] as int, 1)
  {
  }

  /** The first rune of a literal match, as it is written into the extracted literal. */
  lemma RuneText(u: CaseTable, r: int, fold: bool, ci: bool, s: Bytes, i: int)
    requires u.Valid() && (fold ==> ci && u.orbit(r) == r) && (ci ==> IsAscii(s))
    requires 0 <= i < |s| && r != RUNE_ERROR && SameRune(u, fold, r, Decode(s[i..]).0)
    ensures var n := Decode(s[i..]).1;
            Norm(ci, s)[i..i + n] == Encode(WrittenRune(u, ci, r))
  {
    DecodedIsEncoded(s[i..]);
    var (d, n) := Decode(s[i..]);
    if ci {
      AsciiDecodes(s, i);
      assert 0 <= r < 128;
      assert Norm(ci, s)[i..i + 1] == [AsciiLowerByte(s[i])];
    } else {
      assert s[i..][..n] == s[i..i + n];
    }
  }

  /** A literal without U+FFFD matches exactly its own (folded) text. */
  lemma {:induction false} LiteralText(u: CaseTable, runes: seq<int>, fold: bool, ci: bool, s: Bytes, i: int, j: int)
    requires u.Valid() && (fold ==> ci) && (ci ==> IsAscii(s))
    requires fold ==> forall k :: 0 <= k < |runes| ==> u.orbit(runes[k]) == runes[k]
    requires 0 <= i <= j <= |s| && MatchRunes(u, runes, fold, s, i, j)
    requires RUNE_ERROR !in runes
    ensures Norm(ci, s)[i..j] == LitString(u, runes, ci)
  {
    hide Decode, Encode, WrittenRune, SameRune;
    if runes != [] {
      var m := FirstRune(u, runes, fold, s, i, j);
      assert runes[0] in runes;
      RuneText(u, runes[0], fold, ci, s, i);
      assert RUNE_ERROR !in runes[1..];
      LiteralText(u, runes[1..], fold, ci, s, m, j);
      Cut(Norm(ci, s), i, m, j);
    }
  }

  lemma RawLiteralText(u: CaseTable, re: Regexp, ci: bool, s: Bytes, i: int, j: int)
    requires Fits(u, re, ci, s) && 0 <= i <= j <= |s| && Match(u, re, s, i, j)
    requires RawLiteral(u, re, ci) != []
    ensures Norm(ci, s)[i..j] == RawLiteral(u, re, ci)
  {
    LiteralText(u, re.op.runes, re.foldCase, ci, s, i, j);
  }

  /** A literal node with a text stands exactly where it matches. */
  lemma LiteralStands(u: CaseTable, re: Regexp, ci: bool, s: Bytes, i: int, j: int)
    requires Fits(u, re, ci, s) && 0 <= i <= j <= |s| && Match(u, re, s, i, j)
    ensures var w := RawLiteral(u, re, ci);
            w != [] ==> j == i + |w| && At(w, Norm(ci, s), i)
    ensures var w := RawLiteral(u, re, ci); Leads(w, Norm(ci, s), i, j) && Trails(w, Norm(ci, s), i, j)
  {
    if RawLiteral(u, re, ci) != [] {
      RawLiteralText(u, re, ci, s, i, j);
    }
  }

  // ---------------------------------------------------------------- leading and trailing literals

  lemma NothingLeads(t: Bytes, i: int, j: int)
    requires 0 <= i <= j <= |t|
    ensures Leads([], t, i, j) && Trails([], t, i, j)
  {
  }

  /** Every match starts with LeadLiteral. */
  lemma {:induction false} LeadSound(u: CaseTable, re: Regexp, ci: bool, s: Bytes, i: int, j: int)
    requires Fits(u, re, ci, s) && 0 <= i <= j <= |s| && Match(u, re, s, i, j)
    ensures Leads(LeadLiteral(u, re, ci), Norm(ci, s), i, j)
    decreases re, 0
  {
    hide Fits, Leads, MatchTimes, RawLiteral;
    NothingLeads(Norm(ci, s), i, j);
    SubsFit(u, re, ci, s);
    match re.op
    case Literal(_) =>
      LiteralStands(u, re, ci, s, i, j);
    case Capture(sub) => LeadSound(u, sub, ci, s, i, j);
    case Plus(sub) => RepeatedLead(u, re, ci, s, i, j);
    case Repeat(sub, min, max) =>
      if min >= 1 {
        RepeatedLead(u, re, ci, s, i, j);
      }
    case Concat(subs) => LeadOfAllSound(u, subs, ci, s, i, j);
    case _ =>
  }

  lemma {:induction false} RepeatedLead(u: CaseTable, re: Regexp, ci: bool, s: Bytes, i: int, j: int)
    requires Fits(u, re, ci, s) && 0 <= i <= j <= |s| && Match(u, re, s, i, j)
    requires re.op.Plus? || (re.op.Repeat? && re.op.min >= 1)
    ensures Leads(LeadLiteral(u, re.op.sub, ci), Norm(ci, s), i, j)
    decreases re.op.sub, 1
  {
    SubsFit(u, re, ci, s);
    var a, b := RepeatedPieces(u, re, s, i, j);
    LeadSound(u, re.op.sub, ci, s, i, a);
  }

  lemma {:induction false} LeadOfAllSound(u: CaseTable, subs: seq<Regexp>, ci: bool, s: Bytes, i: int, j: int)
    requires AllFit(u, subs, ci, s) && 0 <= i <= j <= |s| && MatchAll(u, subs, s, i, j)
    ensures Leads(LeadOfAll(u, subs, ci), Norm(ci, s), i, j)
    decreases subs, 1
  {
    if subs != [] {
      var m := FirstChild(u, subs, s, i, j);
      if IsEmptyWidth(subs[0]) {
        LeadOfAllSound(u, subs[1..], ci, s, m, j);
      } else {
        LeadSound(u, subs[0], ci, s, i, m);
      }
    }
  }

  /** Every match ends with TrailLiteral. */
  lemma {:induction false} TrailSound(u: CaseTable, re: Regexp, ci: bool, s: Bytes, i: int, j: int)
    requires Fits(u, re, ci, s) && 0 <= i <= j <= |s| && Match(u, re, s, i, j)
    ensures Trails(TrailLiteral(u, re, ci), Norm(ci, s), i, j)
    decreases re, 0
  {
    hide Fits, Trails, MatchTimes, RawLiteral;
    NothingLeads(Norm(ci, s), i, j);
    SubsFit(u, re, ci, s);
    match re.op
    case Literal(_) =>
      LiteralStands(u, re, ci, s, i, j);
    case Capture(sub) => TrailSound(u, sub, ci, s, i, j);
    case Plus(sub) => RepeatedTrail(u, re, ci, s, i, j);
    case Repeat(sub, min, max) =>
      if min >= 1 {
        RepeatedTrail(u, re, ci, s, i, j);
      }
    case Concat(subs) => TrailOfAllSound(u, subs, ci, s, i, j);
    case _ =>
  }

  lemma {:induction false} RepeatedTrail(u: CaseTable, re: Regexp, ci: bool, s: Bytes, i: int, j: int)
    requires Fits(u, re, ci, s) && 0 <= i <= j <= |s| && Match(u, re, s, i, j)
    requires re.op.Plus? || (re.op.Repeat? && re.op.min >= 1)
    ensures Trails(TrailLiteral(u, re.op.sub, ci), Norm(ci, s), i, j)
    decreases re.op.sub, 1
  {
    SubsFit(u, re, ci, s);
    var a, b := RepeatedPieces(u, re, s, i, j);
    TrailSound(u, re.op.sub, ci, s, b, j);
  }

  lemma {:induction false} TrailOfAllSound(u: CaseTable, subs: seq<Regexp>, ci: bool, s: Bytes, i: int, j: int)
    requires AllFit(u, subs, ci, s) && 0 <= i <= j <= |s| && MatchAll(u, subs, s, i, j)
    ensures Trails(TrailOfAll(u, subs, ci), Norm(ci, s), i, j)
    decreases subs, 1
  {
    if subs != [] {
      var n := |subs| - 1;
      var m := LastChild(u, subs, s, i, j);
      if IsEmptyWidth(subs[n]) {
        TrailOfAllSound(u, subs[..n], ci, s, i, m);
      } else {
        TrailSound(u, subs[n], ci, s, m, j);
      }
    }
  }

  // ---------------------------------------------------------------- tries

  /** The suffixes of a checked subtree really lead it: some one of them starts every match. */
  lemma {:induction false} SuffixesLead(u: CaseTable, re: Regexp, ci: bool, s: Bytes, i: int, j: int)
    requires Fits(u, re, ci, s) && 0 <= i <= j <= |s| && Match(u, re, s, i, j)
    requires LedSuffixes(u, re, ci) && RawSuffixes(u, re, ci) != []
    ensures SomeLeads(RawSuffixes(u, re, ci), Norm(ci, s), i, j)
    decreases re, 1
  {
    SubsFit(u, re, ci, s);
    var t := Norm(ci, s);
    var ws := RawSuffixes(u, re, ci);
    match re.op
    case Literal(_) =>
      RawLiteralText(u, re, ci, s, i, j);
      assert At(ws[0], t, i);
    case Capture(sub) => SuffixesLead(u, sub, ci, s, i, j);
    case Alternate(subs) =>
      var k :| 0 <= k < |subs| && Match(u, subs[k], s, i, j);
      SuffixesOfBranchLead(u, subs, k, ci, s, i, j);
    case Concat(subs) =>
      match Extract(u, re, ci) {
        case AnyOf(v) => TrieLeads(u, subs, ci, s, i, j);
        case NoLits =>
        case AllOf(_) =>
          LeadSound(u, re, ci, s, i, j);
          assert At(ws[0], t, i);
        case BothOf(_, _) =>
          LeadSound(u, re, ci, s, i, j);
          assert At(ws[0], t, i);
      }
  }

  lemma {:induction false} SuffixesOfBranchLead(u: CaseTable, subs: seq<Regexp>, k: int, ci: bool, s: Bytes, i: int,
                                                j: int)
    requires AllFit(u, subs, ci, s) && 0 <= i <= j <= |s|
    requires 0 <= k < |subs| && Match(u, subs[k], s, i, j)
    requires forall x :: 0 <= x < |subs| ==> LedSuffixes(u, subs[x], ci)
    requires AllSuffixes(u, subs, ci) != []
    ensures SomeLeads(AllSuffixes(u, subs, ci), Norm(ci, s), i, j)
    decreases subs, 0
  {
    if k == 0 {
      SuffixesLead(u, subs[0], ci, s, i, j);
    } else {
      SuffixesOfBranchLead(u, subs[1..], k - 1, ci, s, i, j);
    }
    AppendLeads(RawSuffixes(u, subs[0], ci), AllSuffixes(u, subs[1..], ci), Norm(ci, s), i, j);
  }

  /** Prefix and suffix glued together: some reconstructed word starts every match. */
  lemma {:induction false} TrieLeads(u: CaseTable, subs: seq<Regexp>, ci: bool, s: Bytes, i: int, j: int)
    requires AllFit(u, subs, ci, s) && 0 <= i <= j <= |s| && MatchAll(u, subs, s, i, j)
    requires TrieReconstruct(u, subs, ci) != [] && LedSuffixes(u, subs[1], ci)
    ensures SomeLeads(TrieReconstruct(u, subs, ci), Norm(ci, s), i, j)
    decreases subs, 2
  {
    hide Match, MatchAll, Fits, Norm, RawSuffixes, RawLiteral, LedSuffixes, SomeLeads, NoneEmpty;
    var m := TwoChildren(u, subs, s, i, j);
    LiteralStands(u, subs[0], ci, s, i, m);
    SuffixesLead(u, subs[1], ci, s, m, j);
    SuffixesNonEmpty(u, subs[1], ci);
    GluedLeads(RawLiteral(u, subs[0], ci), RawSuffixes(u, subs[1], ci), Norm(ci, s), i, j);
  }

  /** A text led by `prefix` and then by one of `ws` is led by one of the glued words. */
  lemma GluedLeads(prefix: Bytes, ws: seq<Bytes>, t: Bytes, i: int, j: int)
    requires prefix != [] && NoneEmpty(ws) && At(prefix, t, i) && SomeLeads(ws, t, i + |prefix|, j)
    ensures SomeLeads(Prefixed(prefix, ws), t, i, j)
  {
    var k :| 0 <= k < |ws| && i + |prefix| + |ws[k]| <= j && At(ws[k], t, i + |prefix|);
    Glue(prefix, ws[k], t, i);
    assert ws[k] in ws;
    var full := prefix + ws[k];
    assert full in Prefixed(prefix, ws);
    var x :| 0 <= x < |Prefixed(prefix, ws)| && Prefixed(prefix, ws)[x] == full;
    assert At(Prefixed(prefix, ws)[x], t, i);
  }

  // ---------------------------------------------------------------- no empty strings

  ghost predicate AllLong(ws: seq<Bytes>) {
    forall w :: w in ws ==> |w| >= 2
  }

  ghost predicate NonEmptyLits(lits: Lits) {
    && (lits.AllOf? || lits.BothOf? ==> lits.all != [] && AllLong(lits.all))
    && (lits.AnyOf? || lits.BothOf? ==> lits.any != [] && AllLong(lits.any))
  }

  /** Extracted strings have at least two bytes, and no any-of set is empty. */
  lemma {:induction false} ExtractNonEmpty(u: CaseTable, re: Regexp, ci: bool)
    ensures NonEmptyLits(Extract(u, re, ci))
    decreases re, 0
  {
    match re.op
    case Capture(sub) => ExtractNonEmpty(u, sub, ci);
    case Plus(sub) => ExtractNonEmpty(u, sub, ci);
    case Repeat(sub, min, _) => ExtractNonEmpty(u, sub, ci);
    case Concat(subs) =>
      CollectNonEmpty(u, subs, ci, [], []);
      TrieWordsLong(u, subs, ci);
    case Alternate(subs) => BranchesNonEmpty(u, subs, ci);
    case _ =>
  }

  lemma {:induction false} CollectNonEmpty(u: CaseTable, subs: seq<Regexp>, ci: bool, all: seq<Bytes>, best: seq<Bytes>)
    requires AllLong(all) && AllLong(best)
    ensures var (a, b) := Collect(u, subs, ci, all, best); AllLong(a) && AllLong(b)
    decreases subs, 1
  {
    if subs != [] {
      ExtractNonEmpty(u, subs[0], ci);
      match Extract(u, subs[0], ci)
      case AllOf(v) => CollectNonEmpty(u, subs[1..], ci, all + v, best);
      case AnyOf(v) => CollectNonEmpty(u, subs[1..], ci, all, if best == [] || |v| < |best| then v else best);
      case _ => CollectNonEmpty(u, subs[1..], ci, all, best);
    }
  }

  lemma {:induction false} BranchesNonEmpty(u: CaseTable, subs: seq<Regexp>, ci: bool)
    ensures AllLong(BranchLits(u, subs, ci))
    decreases subs, 1
  {
    if subs != [] {
      ExtractNonEmpty(u, subs[0], ci);
      BranchesNonEmpty(u, subs[1..], ci);
    }
  }

  lemma {:induction false} TrieWordsLong(u: CaseTable, subs: seq<Regexp>, ci: bool)
    ensures AllLong(TrieReconstruct(u, subs, ci))
    decreases subs, 2
  {
    forall w | w in TrieReconstruct(u, subs, ci) ensures |w| >= 2 {
      var prefix := RawLiteral(u, subs[0], ci);
      var ws := RawSuffixes(u, subs[1], ci);
      var x :| 0 <= x < |ws| && w == prefix + ws[x];
      SuffixesNonEmpty(u, subs[1], ci);
      assert ws[x] in ws;
    }
  }

  ghost predicate NoneEmpty(ws: seq<Bytes>) {
    forall w :: w in ws ==> w != []
  }

  lemma {:induction false} SuffixesNonEmpty(u: CaseTable, re: Regexp, ci: bool)
    ensures NoneEmpty(RawSuffixes(u, re, ci))
    decreases re, 1
  {
    match re.op
    case Capture(sub) => SuffixesNonEmpty(u, sub, ci);
    case Alternate(subs) => BranchSuffixesNonEmpty(u, subs, ci);
    case Concat(_) => ExtractNonEmpty(u, re, ci);
    case _ =>
  }

  lemma {:induction false} BranchSuffixesNonEmpty(u: CaseTable, subs: seq<Regexp>, ci: bool)
    ensures NoneEmpty(AllSuffixes(u, subs, ci))
    decreases subs, 1
  {
    if subs != [] {
      SuffixesNonEmpty(u, subs[0], ci);
      BranchSuffixesNonEmpty(u, subs[1..], ci);
    }
  }

  // ---------------------------------------------------------------- the extraction theorem

  /** Where trie reconstruction is safe, every match contains what Extract promises. */
  lemma {:induction false} ExtractSound(u: CaseTable, re: Regexp, ci: bool, s: Bytes, i: int, j: int)
    requires Fits(u, re, ci, s) && TrieSafe(u, re, ci)
    requires 0 <= i <= j <= |s| && Match(u, re, s, i, j)
    ensures Holds(Extract(u, re, ci), Norm(ci, s), i, j)
    decreases re, 0
  {
    SubsFit(u, re, ci, s);
    hide Fits, Norm, AllOccur, SomeOccurs, MatchTimes, MatchAll, MatchOne, Collect, BranchLits, TrieReconstruct,
         LedSuffixes;
    match re.op
    case Literal(_) => LiteralHolds(u, re, ci, s, i, j);
    case Capture(sub) => ExtractSound(u, sub, ci, s, i, j);
    case Plus(sub) => RepeatedHolds(u, re, ci, s, i, j);
    case Repeat(sub, min, max) =>
      if min >= 1 {
        RepeatedHolds(u, re, ci, s, i, j);
      }
    case Alternate(subs) => AlternateHolds(u, re, ci, s, i, j);
    case Concat(subs) => ConcatHolds(u, re, ci, s, i, j);
    case _ =>
  }

  lemma {:induction false} RepeatedHolds(u: CaseTable, re: Regexp, ci: bool, s: Bytes, i: int, j: int)
    requires Fits(u, re, ci, s) && 0 <= i <= j <= |s| && Match(u, re, s, i, j)
    requires re.op.Plus? || (re.op.Repeat? && re.op.min >= 1)
    requires TrieSafe(u, re.op.sub, ci)
    ensures Holds(Extract(u, re.op.sub, ci), Norm(ci, s), i, j)
    decreases re.op.sub, 1
  {
    SubsFit(u, re, ci, s);
    hide Fits, Norm, Holds, Match, Extract, TrieSafe;
    var a, b := RepeatedPieces(u, re, s, i, j);
    ExtractSound(u, re.op.sub, ci, s, i, a);
    WidenLits(Extract(u, re.op.sub, ci), Norm(ci, s), i, a, i, j);
  }

  lemma {:induction false} AlternateHolds(u: CaseTable, re: Regexp, ci: bool, s: Bytes, i: int, j: int)
    requires Fits(u, re, ci, s) && TrieSafe(u, re, ci) && re.op.Alternate?
    requires 0 <= i <= j <= |s| && Match(u, re, s, i, j)
    ensures Holds(Extract(u, re, ci), Norm(ci, s), i, j)
    decreases re.op.subs, 2
  {
    SubsFit(u, re, ci, s);
    hide Fits, Norm, SomeOccurs, BranchLits;
    var subs := re.op.subs;
    var k :| 0 <= k < |subs| && Match(u, subs[k], s, i, j);
    if BranchLits(u, subs, ci) != [] {
      BranchHolds(u, subs, k, ci, s, i, j);
    }
  }

  lemma {:induction false} ConcatHolds(u: CaseTable, re: Regexp, ci: bool, s: Bytes, i: int, j: int)
    requires Fits(u, re, ci, s) && TrieSafe(u, re, ci) && re.op.Concat?
    requires 0 <= i <= j <= |s| && MatchAll(u, re.op.subs, s, i, j)
    ensures Holds(Extract(u, re, ci), Norm(ci, s), i, j)
    decreases re.op.subs, 2
  {
    SubsFit(u, re, ci, s);
    hide Fits, Norm, AllOccur, SomeOccurs, SomeLeads, MatchAll, Collect, TrieReconstruct;
    var subs, t := re.op.subs, Norm(ci, s);
    NothingGathered(t, i);
    CollectSound(u, subs, ci, [], [], s, i, i, j);
    if Collect(u, subs, ci, [], []).0 == [] && TrieReconstruct(u, subs, ci) != [] {
      TrieLeads(u, subs, ci, s, i, j);
      LeadsOccur(TrieReconstruct(u, subs, ci), t, i, j);
    }
  }

  lemma NothingGathered(t: Bytes, i: int)
    ensures Gathered([], [], t, i, i)
  {
  }

  lemma LiteralHolds(u: CaseTable, re: Regexp, ci: bool, s: Bytes, i: int, j: int)
    requires Fits(u, re, ci, s) && re.op.Literal? && 0 <= i <= j <= |s| && Match(u, re, s, i, j)
    ensures Holds(Extract(u, re, ci), Norm(ci, s), i, j)
  {
    if RawLiteral(u, re, ci) != [] {
      RawLiteralText(u, re, ci, s, i, j);
      assert At(RawLiteral(u, re, ci), Norm(ci, s), i);
    }
  }

  lemma LeadsOccur(ws: seq<Bytes>, t: Bytes, i: int, j: int)
    requires SomeLeads(ws, t, i, j)
    ensures SomeOccurs(ws, t, i, j)
  {
    var k :| 0 <= k < |ws| && i + |ws[k]| <= j && At(ws[k], t, i);
    assert OccursIn(ws[k], t, i, j);
  }

  /** The accumulators after a child with literals `lits`. */
  function CollectNext(lits: Lits, all: seq<Bytes>, best: seq<Bytes>): (seq<Bytes>, seq<Bytes>) {
    match lits
    case AllOf(v) => (all + v, best)
    case AnyOf(v) => (all, if best == [] || |v| < |best| then v else best)
    case _ => (all, best)
  }

  lemma CollectsNext(u: CaseTable, subs: seq<Regexp>, ci: bool, all: seq<Bytes>, best: seq<Bytes>)
    requires subs != []
    ensures var next := CollectNext(Extract(u, subs[0], ci), all, best);
            Collect(u, subs, ci, all, best) == Collect(u, subs[1..], ci, next.0, next.1)
  {
    hide Extract;
  }

  ghost predicate Gathered(all: seq<Bytes>, best: seq<Bytes>, t: Bytes, i: int, j: int) {
    AllOccur(all, t, i, j) && (best != [] ==> SomeOccurs(best, t, i, j))
  }

  lemma NextGathered(lits: Lits, all: seq<Bytes>, best: seq<Bytes>, t: Bytes, i: int, m: int, j: int)
    requires i <= m <= j && Gathered(all, best, t, i, m) && Holds(lits, t, m, j)
    ensures var next := CollectNext(lits, all, best); Gathered(next.0, next.1, t, i, j)
  {
    hide AllOccur, SomeOccurs;
    Widen(all, t, i, m, i, j);
    Widen(best, t, i, m, i, j);
    WidenLits(lits, t, m, j, i, j);
    if lits.AllOf? {
      AppendAll(all, lits.all, t, i, j);
    }
  }

  /** The accumulators hold of the text before `m`, the children match from `m` on. */
  lemma {:induction false} CollectSound(u: CaseTable, subs: seq<Regexp>, ci: bool, all: seq<Bytes>, best: seq<Bytes>,
                                        s: Bytes, i: int, m: int, j: int)
    requires AllFit(u, subs, ci, s) && forall k :: 0 <= k < |subs| ==> TrieSafe(u, subs[k], ci)
    requires 0 <= i <= m <= j <= |s| && MatchAll(u, subs, s, m, j)
    requires Gathered(all, best, Norm(ci, s), i, m)
    ensures var (a, b) := Collect(u, subs, ci, all, best); Gathered(a, b, Norm(ci, s), i, j)
    decreases subs, 1
  {
    if subs == [] {
      assert m == j;
    } else {
      hide Norm, Gathered, MatchAll, Match, TrieSafe, Fits, Extract, Collect;
      var t := Norm(ci, s);
      var m' := FirstChild(u, subs, s, m, j);
      var lits := Extract(u, subs[0], ci);
      ExtractSound(u, subs[0], ci, s, m, m');
      NextGathered(lits, all, best, t, i, m, m');
      CollectsNext(u, subs, ci, all, best);
      var next := CollectNext(lits, all, best);
      CollectSound(u, subs[1..], ci, next.0, next.1, s, i, m', j);
    }
  }

  lemma {:induction false} BranchHolds(u: CaseTable, subs: seq<Regexp>, k: int, ci: bool, s: Bytes, i: int, j: int)
    requires AllFit(u, subs, ci, s) && forall x :: 0 <= x < |subs| ==> TrieSafe(u, subs[x], ci)
    requires 0 <= i <= j <= |s| && 0 <= k < |subs| && Match(u, subs[k], s, i, j)
    requires BranchLits(u, subs, ci) != []
    ensures SomeOccurs(BranchLits(u, subs, ci), Norm(ci, s), i, j)
    decreases subs, 1
  {
    var t := Norm(ci, s);
    var rest := BranchLits(u, subs[1..], ci);
    var lits := Extract(u, subs[0], ci);
    var first := match lits
                 case NoLits => []
                 case AllOf(v) => [Longest(v)]
                 case AnyOf(v) => v
                 case BothOf(_, any) => any;
    assert BranchLits(u, subs, ci) == first + rest;
    if k == 0 {
      ExtractSound(u, subs[0], ci, s, i, j);
      ExtractNonEmpty(u, subs[0], ci);
      if lits.AllOf? {
        assert OccursIn(Longest(lits.all), t, i, j);
        assert OccursIn(first[0], t, i, j);
      }
    } else {
      BranchHolds(u, subs[1..], k - 1, ci, s, i, j);
    }
    AppendSome(first, rest, t, i, j);
  }
}
