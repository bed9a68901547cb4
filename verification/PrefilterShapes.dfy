/** Plain syntactic shapes that meet the conditions of the prefilter's soundness, in trees of any form. */
module PrefilterShapes {
  import opened Bytes
  import opened Regex
  import opened Literals
  import opened LiteralsSound
  import opened Prefilter
  import opened PrefilterLimits

  // ---------------------------------------------------------------- tries

  /** A literal trie, or an alternation of literal tries. */
  predicate IsTrieOrChoice(u: CaseTable, re: Regexp, ci: bool) {
    || IsLiteralTrie(u, re, ci)
    || (re.op.Alternate? && re.op.subs != [] && forall k :: 0 <= k < |re.op.subs| ==> IsLiteralTrie(u, re.op.subs[k], ci))
  }

  /** Wherever the walk rebuilds words from two children, the second one is a trie or an alternation of tries. */
  predicate RebuildsTriesOnly(u: CaseTable, re: Regexp, ci: bool)
    decreases re
  {
    match re.op
    case Capture(sub) => RebuildsTriesOnly(u, sub, ci)
    case Plus(sub) => RebuildsTriesOnly(u, sub, ci)
    case Repeat(sub, min, _) => min >= 1 ==> RebuildsTriesOnly(u, sub, ci)
    case Alternate(subs) => forall k :: 0 <= k < |subs| ==> RebuildsTriesOnly(u, subs[k], ci)
    case Concat(subs) =>
      && (forall k :: 0 <= k < |subs| ==> RebuildsTriesOnly(u, subs[k], ci))
      && (Collect(u, subs, ci, [], []).0 == [] && TrieReconstruct(u, subs, ci) != [] ==> IsTrieOrChoice(u, subs[1], ci))
    case _ => true
  }

  lemma TrieOrChoiceIsLed(u: CaseTable, re: Regexp, ci: bool)
    requires IsTrieOrChoice(u, re, ci)
    ensures LedSuffixes(u, re, ci)
  {
    if IsLiteralTrie(u, re, ci) {
      TrieIsLed(u, re, ci);
    } else {
      forall k | 0 <= k < |re.op.subs| ensures LedTrie(u, re.op.subs[k], ci) {
        TrieIsLed(u, re.op.subs[k], ci);
      }
      AlternationStep(u, re, ci);
    }
  }

  /** A tree that rebuilds only literal tries is safe, wherever in it they stand. */
  lemma {:induction false} TriesAreSafe(u: CaseTable, re: Regexp, ci: bool)
    requires RebuildsTriesOnly(u, re, ci)
    ensures TrieSafe(u, re, ci)
    decreases re
  {
    hide IsTrieOrChoice, LedSuffixes, Collect;
    match re.op
    case Capture(sub) => TriesAreSafe(u, sub, ci);
    case Plus(sub) => TriesAreSafe(u, sub, ci);
    case Repeat(sub, min, _) =>
      if min >= 1 {
        TriesAreSafe(u, sub, ci);
      }
    case Alternate(subs) =>
      forall k | 0 <= k < |subs| ensures TrieSafe(u, subs[k], ci) {
        TriesAreSafe(u, subs[k], ci);
      }
    case Concat(subs) =>
      forall k | 0 <= k < |subs| ensures TrieSafe(u, subs[k], ci) {
        TriesAreSafe(u, subs[k], ci);
      }
      if Collect(u, subs, ci, [], []).0 == [] && TrieReconstruct(u, subs, ci) != [] {
        TrieOrChoiceIsLed(u, subs[1], ci);
      }
    case _ =>
  }

  // ---------------------------------------------------------------- anchors

  predicate IsLongLiteral(u: CaseTable, re: Regexp, ci: bool) {
    |RawLiteral(u, re, ci)| >= 2
  }

  /** A literal of two bytes or more stands directly behind `\A`. */
  predicate BeginsWithLiteral(u: CaseTable, re: Regexp, ci: bool) {
    re.op.Concat? && |re.op.subs| >= 2 && re.op.subs[0].op.BeginText? && IsLongLiteral(u, re.op.subs[1], ci)
  }

  /** A literal of two bytes or more stands directly before `\z`. */
  predicate EndsWithLiteral(u: CaseTable, re: Regexp, ci: bool) {
    re.op.Concat? && |re.op.subs| >= 2 &&
    var n := |re.op.subs|; re.op.subs[n - 1].op.EndText? && IsLongLiteral(u, re.op.subs[n - 2], ci)
  }

  /** Each anchor the builder detects has a literal directly beside it; what else the regex holds does not matter. */
  predicate LiteralsAtAnchors(u: CaseTable, re: Regexp, ci: bool)
    decreases re
  {
    match re.op
    case Capture(sub) => LiteralsAtAnchors(u, sub, ci)
    case Concat(_) =>
      (HasBeginAnchor(re) ==> BeginsWithLiteral(u, re, ci)) && (HasEndAnchor(re) ==> EndsWithLiteral(u, re, ci))
    case _ => true
  }

  /** What was collected before stays in front. */
  lemma {:induction false} CollectExtends(u: CaseTable, subs: seq<Regexp>, ci: bool, all: seq<Bytes>, best: seq<Bytes>)
    ensures all <= Collect(u, subs, ci, all, best).0
    decreases |subs|
  {
    if subs != [] {
      match Extract(u, subs[0], ci)
      case AllOf(v) => CollectExtends(u, subs[1..], ci, all + v, best);
      case AnyOf(v) => CollectExtends(u, subs[1..], ci, all, if best == [] || |v| < |best| then v else best);
      case _ => CollectExtends(u, subs[1..], ci, all, best);
    }
  }

  /** The first of the children that are left, and then the others. */
  lemma {:induction false} CollectSplits(u: CaseTable, a: seq<Regexp>, b: seq<Regexp>, ci: bool, all: seq<Bytes>,
                                         best: seq<Bytes>)
    ensures var (x, y) := Collect(u, a, ci, all, best); Collect(u, a + b, ci, all, best) == Collect(u, b, ci, x, y)
    decreases |a|
  {
    if a == [] {
      assert a + b == b;
    } else {
      assert (a + b)[1..] == a[1..] + b && (a + b)[0] == a[0];
      match Extract(u, a[0], ci)
      case AllOf(v) => CollectSplits(u, a[1..], b, ci, all + v, best);
      case AnyOf(v) => CollectSplits(u, a[1..], b, ci, all, if best == [] || |v| < |best| then v else best);
      case _ => CollectSplits(u, a[1..], b, ci, all, best);
    }
  }

  lemma {:induction false} NothingIsShort(ss: seq<Bytes>)
    requires AllLong(ss)
    ensures FilterShort(ss, 2) == ss
  {
    if ss != [] {
      assert ss[|ss| - 1] in ss && forall w :: w in ss[..|ss| - 1] ==> w in ss;
      NothingIsShort(ss[..|ss| - 1]);
      assert ss == ss[..|ss| - 1] + [ss[|ss| - 1]];
    }
  }

  lemma LongLiteralExtracts(u: CaseTable, re: Regexp, ci: bool)
    requires IsLongLiteral(u, re, ci)
    ensures Extract(u, re, ci) == AllOf([RawLiteral(u, re, ci)])
    ensures LeadLiteral(u, re, ci) == TrailLiteral(u, re, ci) == RawLiteral(u, re, ci) && !IsEmptyWidth(re)
  {
  }

  lemma BeginLiteralComesFirst(u: CaseTable, re: Regexp, ci: bool)
    requires BeginsWithLiteral(u, re, ci)
    ensures var w := RawLiteral(u, re.op.subs[1], ci); [w] <= Collect(u, re.op.subs, ci, [], []).0 && LeadLiteral(u, re, ci) == w
  {
    var subs := re.op.subs;
    var w := RawLiteral(u, subs[1], ci);
    LongLiteralExtracts(u, subs[1], ci);
    assert subs[1..][0] == subs[1] && [] + [w] == [w];
    assert Collect(u, subs, ci, [], []) == Collect(u, subs[1..], ci, [], []) == Collect(u, subs[1..][1..], ci, [w], []);
    CollectExtends(u, subs[1..][1..], ci, [w], []);
    assert LeadOfAll(u, subs[1..], ci) == w;
  }

  lemma LastTwoCollect(u: CaseTable, l: Regexp, z: Regexp, ci: bool, all: seq<Bytes>, best: seq<Bytes>)
    requires IsLongLiteral(u, l, ci) && z.op.EndText?
    ensures Collect(u, [l, z], ci, all, best).0 == all + [RawLiteral(u, l, ci)]
  {
    LongLiteralExtracts(u, l, ci);
    assert [l, z][1..] == [z] && [z][1..] == [];
    assert Extract(u, z, ci) == NoLits;
    hide Extract;
    assert Collect(u, [z], ci, all + [RawLiteral(u, l, ci)], best) == (all + [RawLiteral(u, l, ci)], best);
  }

  lemma LastTwoTrail(u: CaseTable, a: seq<Regexp>, l: Regexp, z: Regexp, ci: bool)
    requires IsLongLiteral(u, l, ci) && z.op.EndText?
    ensures TrailOfAll(u, a + [l, z], ci) == RawLiteral(u, l, ci)
  {
    LongLiteralExtracts(u, l, ci);
    assert (a + [l, z])[..|a| + 1] == a + [l] && (a + [l, z])[|a| + 1] == z;
    assert (a + [l])[..|a|] == a && (a + [l])[|a|] == l;
    hide TrailLiteral;
    assert TrailOfAll(u, a + [l], ci) == TrailLiteral(u, l, ci);
  }

  lemma EndLiteralComesLast(u: CaseTable, re: Regexp, ci: bool)
    requires EndsWithLiteral(u, re, ci)
    ensures var subs := re.op.subs; var w := RawLiteral(u, subs[|subs| - 2], ci);
            EndsWith(Collect(u, subs, ci, [], []).0, w) && TrailLiteral(u, re, ci) == w
  {
    hide Collect, RawLiteral, TrailOfAll, IsLongLiteral;
    var subs := re.op.subs;
    var n := |subs| - 2;
    var (a, l, z) := (subs[..n], subs[n], subs[n + 1]);
    assert subs == a + [l, z];
    var (x, y) := Collect(u, a, ci, [], []);
    CollectSplits(u, a, [l, z], ci, [], []);
    LastTwoCollect(u, l, z, ci, x, y);
    LastTwoTrail(u, a, l, z, ci);
  }

  predicate EndsWith(ws: seq<Bytes>, w: Bytes) {
    ws != [] && ws[|ws| - 1] == w
  }

  lemma AnchoredNeedles(u: CaseTable, re: Regexp, ci: bool, all: seq<Bytes>)
    requires AllLong(all)
    requires HasBeginAnchor(re) ==> [LeadLiteral(u, re, ci)] <= all
    requires HasEndAnchor(re) ==> EndsWith(all, TrailLiteral(u, re, ci))
    ensures NeedlesAtAnchors(u, re, all, ci)
  {
    NothingIsShort(all);
    hide FilterShort, LeadLiteral, TrailLiteral, HasBeginAnchor, HasEndAnchor;
  }

  lemma ConcatAnchorsAreSafe(u: CaseTable, re: Regexp, ci: bool)
    requires re.op.Concat? && LiteralsAtAnchors(u, re, ci)
    ensures AnchorSafe(u, re, ci)
  {
    var (all, best) := Collect(u, re.op.subs, ci, [], []);
    CollectNonEmpty(u, re.op.subs, ci, [], []);
    if HasBeginAnchor(re) {
      BeginLiteralComesFirst(u, re, ci);
    }
    if HasEndAnchor(re) {
      EndLiteralComesLast(u, re, ci);
    }
    AnchoredNeedles(u, re, ci, all);
    hide NeedlesAtAnchors, Collect, AllLong, LiteralsAtAnchors, HasBeginAnchor, HasEndAnchor, TrieReconstruct;
  }

  /** A literal directly beside each anchor makes the anchored tests right, whatever else the regex holds. */
  lemma {:induction false} AnchoredLiteralsAreSafe(u: CaseTable, re: Regexp, ci: bool)
    requires LiteralsAtAnchors(u, re, ci)
    ensures AnchorSafe(u, re, ci)
    decreases re
  {
    match re.op
    case Capture(sub) =>
      AnchoredLiteralsAreSafe(u, sub, ci);
      CaptureIsTransparent(u, re, ci);
    case Concat(_) => ConcatAnchorsAreSafe(u, re, ci);
    case _ =>
      assert !HasBeginAnchor(re) || re.op.BeginText?;
      assert !HasEndAnchor(re) || re.op.EndText?;
  }

  lemma CaptureIsTransparent(u: CaseTable, re: Regexp, ci: bool)
    requires re.op.Capture? && AnchorSafe(u, re.op.sub, ci)
    ensures AnchorSafe(u, re, ci)
  {
    assert Extract(u, re, ci) == Extract(u, re.op.sub, ci);
    assert HasBeginAnchor(re) == HasBeginAnchor(re.op.sub) && HasEndAnchor(re) == HasEndAnchor(re.op.sub);
  }

  // ---------------------------------------------------------------- the main theorem on plain shapes

  /** The prefilter never misses a match of a regex in the parser's normal form that rebuilds only literal tries and has
      a literal directly beside each anchor. */
  lemma PlainShapesAreSound(u: CaseTable, re: Regexp)
    requires u.Valid() && FoldNormal(u, re)
    requires RebuildsTriesOnly(u, re, HasFold(re)) && LiteralsAtAnchors(u, re, HasFold(re))
    ensures NeverMisses(u, re)
  {
    TriesAreSafe(u, re, HasFold(re));
    AnchoredLiteralsAreSafe(u, re, HasFold(re));
    PrefilterSound(u, re);
  }
}
