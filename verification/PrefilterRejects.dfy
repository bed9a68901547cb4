/** What the prefilter rejects: its exact answer on trees of words, gaps and alternations of words. */
module PrefilterRejects {
  import opened Bytes
  import opened Regex
  import opened Literals
  import opened Prefilter
  import opened Wrappers

  // ---------------------------------------------------------------- words and alternations of a tree

  /** The texts of two bytes and more that the tree spells, left to right, through groups and through repetitions
      taken at least once. */
  function LongWords(u: CaseTable, re: Regexp, ci: bool): seq<Bytes>
    decreases re, 0
  {
    match re.op
    case Literal(runes) =>
      if 0xFFFD in runes || |LitString(u, runes, ci)| < 2 then [] else [LitString(u, runes, ci)]
    case Capture(sub) => LongWords(u, sub, ci)
    case Plus(sub) => LongWords(u, sub, ci)
    case Repeat(sub, min, _) => if min >= 1 then LongWords(u, sub, ci) else []
    case Concat(subs) => WordsOf(u, subs, ci)
    case _ => []
  }

  function WordsOf(u: CaseTable, subs: seq<Regexp>, ci: bool): seq<Bytes>
    decreases subs, 1
  {
    if subs == [] then [] else LongWords(u, subs[0], ci) + WordsOf(u, subs[1..], ci)
  }

  /** The shape that prefix factoring leaves behind. */
  predicate IsPair(subs: seq<Regexp>) {
    |subs| == 2 && subs[0].op.Literal?
  }

  /** No alternation except under a repetition that may be empty, and no factored pair. */
  predicate Linear(u: CaseTable, re: Regexp, ci: bool)
    decreases re
  {
    match re.op
    case Capture(sub) => Linear(u, sub, ci)
    case Plus(sub) => Linear(u, sub, ci)
    case Repeat(sub, min, _) => min >= 1 ==> Linear(u, sub, ci)
    case Concat(subs) =>
      (forall k :: 0 <= k < |subs| ==> Linear(u, subs[k], ci)) && (WordsOf(u, subs, ci) == [] ==> !IsPair(subs))
    case Alternate(_) => false
    case _ => true
  }

  /** An alternation, perhaps in groups, each of whose branches spells a word. */
  predicate IsPick(u: CaseTable, re: Regexp, ci: bool)
    decreases re
  {
    match re.op
    case Capture(sub) => IsPick(u, sub, ci)
    case Plus(sub) => IsPick(u, sub, ci)
    case Repeat(sub, min, _) => min >= 1 && IsPick(u, sub, ci)
    case Alternate(subs) =>
      subs != [] && forall k :: 0 <= k < |subs| ==> Linear(u, subs[k], ci) && LongWords(u, subs[k], ci) != []
    case _ => false
  }

  /** The longest word of each branch. */
  function PickWords(u: CaseTable, re: Regexp, ci: bool): seq<Bytes>
    requires IsPick(u, re, ci)
    decreases re
  {
    match re.op
    case Capture(sub) => PickWords(u, sub, ci)
    case Plus(sub) => PickWords(u, sub, ci)
    case Repeat(sub, _, _) => PickWords(u, sub, ci)
    case Alternate(subs) => seq(|subs|, k requires 0 <= k < |subs| => Longest(LongWords(u, subs[k], ci)))
  }

  /** Linear parts and alternations one behind the other, perhaps in groups. */
  predicate Simple(u: CaseTable, re: Regexp, ci: bool)
    decreases re
  {
    match re.op
    case Capture(sub) => Simple(u, sub, ci)
    case Plus(sub) => Simple(u, sub, ci)
    case Repeat(sub, min, _) => min >= 1 ==> Simple(u, sub, ci)
    case Concat(subs) => AreParts(u, subs, ci) && (WordsOf(u, subs, ci) == [] ==> !IsPair(subs))
    case _ => Linear(u, re, ci) || IsPick(u, re, ci)
  }

  predicate AreParts(u: CaseTable, subs: seq<Regexp>, ci: bool) {
    forall k :: 0 <= k < |subs| ==> Linear(u, subs[k], ci) || IsPick(u, subs[k], ci)
  }

  function PicksOf(u: CaseTable, subs: seq<Regexp>, ci: bool): seq<seq<Bytes>> {
    if subs == [] then []
    else (if IsPick(u, subs[0], ci) then [PickWords(u, subs[0], ci)] else []) + PicksOf(u, subs[1..], ci)
  }

  /** The alternations' words, left to right. */
  function Picks(u: CaseTable, re: Regexp, ci: bool): seq<seq<Bytes>>
    decreases re
  {
    match re.op
    case Capture(sub) => Picks(u, sub, ci)
    case Plus(sub) => Picks(u, sub, ci)
    case Repeat(sub, min, _) => if min >= 1 then Picks(u, sub, ci) else []
    case Concat(subs) => PicksOf(u, subs, ci)
    case _ => if IsPick(u, re, ci) then [PickWords(u, re, ci)] else []
  }

  /** The first of the alternations with the fewest words. */
  predicate IsFewest(picks: seq<seq<Bytes>>, i: int) {
    0 <= i < |picks| &&
    (forall j :: 0 <= j < |picks| ==> |picks[i]| <= |picks[j]|) && (forall j :: 0 <= j < i ==> |picks[i]| < |picks[j]|)
  }

  /** The outermost node at the front, and the one at the end. */
  function Leftmost(re: Regexp): Regexp
    decreases re
  {
    match re.op
    case Capture(sub) => Leftmost(sub)
    case Concat(subs) => if subs == [] then re else Leftmost(subs[0])
    case _ => re
  }

  function Rightmost(re: Regexp): Regexp
    decreases re
  {
    match re.op
    case Capture(sub) => Rightmost(sub)
    case Concat(subs) => if subs == [] then re else Rightmost(subs[|subs| - 1])
    case _ => re
  }

  // ---------------------------------------------------------------- what is extracted

  lemma {:induction false} LinearExtract(u: CaseTable, re: Regexp, ci: bool)
    requires Linear(u, re, ci)
    ensures Extract(u, re, ci) == if LongWords(u, re, ci) == [] then NoLits else AllOf(LongWords(u, re, ci))
    ensures !IsPick(u, re, ci)
    decreases re, 0
  {
    match re.op
    case Capture(sub) => LinearExtract(u, sub, ci);
    case Plus(sub) => LinearExtract(u, sub, ci);
    case Repeat(sub, min, _) =>
      if min >= 1 {
        LinearExtract(u, sub, ci);
      }
    case Concat(subs) =>
      LinearCollect(u, subs, ci, [], []);
      assert [] + WordsOf(u, subs, ci) == WordsOf(u, subs, ci);
    case _ =>
  }

  lemma {:induction false} LinearCollect(u: CaseTable, subs: seq<Regexp>, ci: bool, all: seq<Bytes>, best: seq<Bytes>)
    requires forall k :: 0 <= k < |subs| ==> Linear(u, subs[k], ci)
    ensures Collect(u, subs, ci, all, best) == (all + WordsOf(u, subs, ci), best)
    decreases subs, 1
  {
    if subs == [] {
      assert all + [] == all;
    } else {
      var v := LongWords(u, subs[0], ci);
      LinearExtract(u, subs[0], ci);
      LinearCollect(u, subs[1..], ci, all + v, best);
      assert all + v + WordsOf(u, subs[1..], ci) == all + (v + WordsOf(u, subs[1..], ci));
      assert v == [] ==> all + v == all;
    }
  }

  lemma {:induction false} WordsAreLong(u: CaseTable, re: Regexp, ci: bool)
    ensures forall w :: w in LongWords(u, re, ci) ==> |w| >= 2
    decreases re, 0
  {
    match re.op
    case Capture(sub) => WordsAreLong(u, sub, ci);
    case Plus(sub) => WordsAreLong(u, sub, ci);
    case Repeat(sub, _, _) => WordsAreLong(u, sub, ci);
    case Concat(subs) => AllWordsAreLong(u, subs, ci);
    case _ =>
  }

  lemma {:induction false} AllWordsAreLong(u: CaseTable, subs: seq<Regexp>, ci: bool)
    ensures forall w :: w in WordsOf(u, subs, ci) ==> |w| >= 2
    decreases subs, 1
  {
    if subs != [] {
      WordsAreLong(u, subs[0], ci);
      AllWordsAreLong(u, subs[1..], ci);
    }
  }

  lemma {:induction false} BranchesExtract(u: CaseTable, subs: seq<Regexp>, ci: bool)
    requires forall k :: 0 <= k < |subs| ==> Linear(u, subs[k], ci) && LongWords(u, subs[k], ci) != []
    ensures BranchLits(u, subs, ci) == seq(|subs|, k requires 0 <= k < |subs| => Longest(LongWords(u, subs[k], ci)))
    decreases |subs|
  {
    if subs != [] {
      LinearExtract(u, subs[0], ci);
      BranchesExtract(u, subs[1..], ci);
    }
  }

  lemma {:induction false} PickExtract(u: CaseTable, re: Regexp, ci: bool)
    requires IsPick(u, re, ci)
    ensures Extract(u, re, ci) == AnyOf(PickWords(u, re, ci)) && PickWords(u, re, ci) != []
    ensures forall w :: w in PickWords(u, re, ci) ==> |w| >= 2
    ensures LongWords(u, re, ci) == []
    decreases re
  {
    match re.op
    case Capture(sub) => PickExtract(u, sub, ci);
    case Plus(sub) => PickExtract(u, sub, ci);
    case Repeat(sub, _, _) => PickExtract(u, sub, ci);
    case Alternate(subs) =>
      BranchesExtract(u, subs, ci);
      forall k | 0 <= k < |subs| ensures |Longest(LongWords(u, subs[k], ci))| >= 2 {
        WordsAreLong(u, subs[k], ci);
      }
  }

  /** The smaller set wins, the earlier one on a tie. */
  function Kept(best: seq<Bytes>, picks: seq<seq<Bytes>>): seq<Bytes>
    decreases |picks|
  {
    if picks == [] then best
    else Kept(if best == [] || |picks[0]| < |best| then picks[0] else best, picks[1..])
  }

  lemma {:induction false} PartsCollect(u: CaseTable, subs: seq<Regexp>, ci: bool, all: seq<Bytes>, best: seq<Bytes>)
    requires AreParts(u, subs, ci)
    ensures Collect(u, subs, ci, all, best) == (all + WordsOf(u, subs, ci), Kept(best, PicksOf(u, subs, ci)))
    decreases |subs|
  {
    if subs == [] {
      assert all + [] == all;
    } else {
      PartCollects(u, subs, ci, all, best);
      hide LongWords, Extract, IsPick, Linear, PickWords, Collect;
      var v, rest := LongWords(u, subs[0], ci), WordsOf(u, subs[1..], ci);
      assert all + v + rest == all + (v + rest);
      if IsPick(u, subs[0], ci) {
        var p := PickWords(u, subs[0], ci);
        assert ([p] + PicksOf(u, subs[1..], ci))[1..] == PicksOf(u, subs[1..], ci);
        PartsCollect(u, subs[1..], ci, all + v, if best == [] || |p| < |best| then p else best);
      } else {
        assert [] + PicksOf(u, subs[1..], ci) == PicksOf(u, subs[1..], ci);
        PartsCollect(u, subs[1..], ci, all + v, best);
      }
    }
  }

  lemma PartCollects(u: CaseTable, subs: seq<Regexp>, ci: bool, all: seq<Bytes>, best: seq<Bytes>)
    requires subs != [] && (Linear(u, subs[0], ci) || IsPick(u, subs[0], ci))
    ensures var next := all + LongWords(u, subs[0], ci);
            Collect(u, subs, ci, all, best) ==
              if IsPick(u, subs[0], ci) then
                var p := PickWords(u, subs[0], ci);
                Collect(u, subs[1..], ci, next, if best == [] || |p| < |best| then p else best)
              else Collect(u, subs[1..], ci, next, best)
  {
    hide LongWords, Extract;
    if IsPick(u, subs[0], ci) {
      PickExtract(u, subs[0], ci);
    } else {
      LinearExtract(u, subs[0], ci);
    }
    hide IsPick, Linear;
    assert all + [] == all;
  }

  lemma {:induction false} KeptIsFewest(best: seq<Bytes>, picks: seq<seq<Bytes>>)
    requires forall j :: 0 <= j < |picks| ==> picks[j] != []
    ensures best == [] ==> forall i :: IsFewest(picks, i) ==> Kept(best, picks) == picks[i]
    ensures best != [] ==> forall i :: IsFewest([best] + picks, i) ==> Kept(best, picks) == ([best] + picks)[i]
    decreases |picks|
  {
    if picks == [] {
    } else if best == [] {
      KeptIsFewest(picks[0], picks[1..]);
      assert [picks[0]] + picks[1..] == picks;
    } else {
      var next := if |picks[0]| < |best| then picks[0] else best;
      KeptIsFewest(next, picks[1..]);
      forall i | IsFewest([best] + picks, i) ensures Kept(best, picks) == ([best] + picks)[i] {
        FewestLater(best, picks, i);
      }
    }
  }

  /** Of the first two sets the larger one, or on a tie the second, may be dropped. */
  lemma FewestLater(best: seq<Bytes>, picks: seq<seq<Bytes>>, i: int)
    requires picks != [] && IsFewest([best] + picks, i)
    ensures var next := if |picks[0]| < |best| then picks[0] else best;
            var k := if i < 2 then 0 else i - 1;
            IsFewest([next] + picks[1..], k) && ([next] + picks[1..])[k] == ([best] + picks)[i]
  {
    var all := [best] + picks;
    var next := if |picks[0]| < |best| then picks[0] else best;
    var later := [next] + picks[1..];
    assert all[0] == best && all[1] == picks[0];
    assert forall j :: 1 <= j < |later| ==> later[j] == all[j + 1];
    assert next == all[0] || next == all[1];
  }

  lemma {:induction false} SomeFewest(picks: seq<seq<Bytes>>) returns (i: int)
    requires picks != []
    ensures IsFewest(picks, i)
    decreases |picks|
  {
    var n := |picks| - 1;
    if n == 0 {
      i := 0;
    } else {
      var k := SomeFewest(picks[..n]);
      assert forall j :: 0 <= j < n ==> picks[..n][j] == picks[j];
      i := if |picks[n]| < |picks[k]| then n else k;
    }
  }

  predicate ArePicks(picks: seq<seq<Bytes>>) {
    forall j :: 0 <= j < |picks| ==> picks[j] != [] && forall w :: w in picks[j] ==> |w| >= 2
  }

  lemma {:induction false} PartsPick(u: CaseTable, subs: seq<Regexp>, ci: bool)
    ensures ArePicks(PicksOf(u, subs, ci))
    decreases |subs|
  {
    if subs != [] {
      PartsPick(u, subs[1..], ci);
      if IsPick(u, subs[0], ci) {
        PickExtract(u, subs[0], ci);
      }
      hide IsPick;
    }
  }

  /** What the walk hands over: the words, and of the alternations the one with the fewest words. */
  function LitsOf(words: seq<Bytes>, picks: seq<seq<Bytes>>): Lits {
    var kept := Kept([], picks);
    if words == [] then if kept == [] then NoLits else AnyOf(kept)
    else if kept == [] then AllOf(words) else BothOf(words, kept)
  }

  lemma KeptIsPick(picks: seq<seq<Bytes>>)
    requires ArePicks(picks)
    ensures Kept([], picks) == [] <==> picks == []
    ensures forall w :: w in Kept([], picks) ==> |w| >= 2
  {
    if picks != [] {
      var i := SomeFewest(picks);
      KeptIsFewest([], picks);
    }
  }

  lemma {:induction false} SimpleExtract(u: CaseTable, re: Regexp, ci: bool)
    requires Simple(u, re, ci)
    ensures Extract(u, re, ci) == LitsOf(LongWords(u, re, ci), Picks(u, re, ci)) && ArePicks(Picks(u, re, ci))
    decreases re
  {
    hide AreParts, IsPair, LitsOf, WordsOf, PicksOf, Collect, TrieReconstruct, BranchLits, LitString;
    match re.op
    case Capture(sub) => SimpleExtract(u, sub, ci);
    case Plus(sub) => SimpleExtract(u, sub, ci);
    case Repeat(sub, min, _) =>
      if min >= 1 {
        SimpleExtract(u, sub, ci);
      } else {
        LitsOfOne([], []);
      }
    case Concat(subs) => ConcatExtract(u, re, ci);
    case _ => LeafExtract(u, re, ci);
  }

  lemma LitsOfOne(words: seq<Bytes>, pick: seq<Bytes>)
    ensures LitsOf(words, []) == if words == [] then NoLits else AllOf(words)
    ensures pick != [] ==> LitsOf([], [pick]) == AnyOf(pick)
  {
    assert [pick][1..] == [] && Kept(pick, []) == pick;
    assert Kept([], [pick]) == Kept(pick, [pick][1..]);
  }

  lemma LeafExtract(u: CaseTable, re: Regexp, ci: bool)
    requires !re.op.Capture? && !re.op.Plus? && !re.op.Repeat? && !re.op.Concat?
    requires Linear(u, re, ci) || IsPick(u, re, ci)
    ensures Extract(u, re, ci) == LitsOf(LongWords(u, re, ci), Picks(u, re, ci)) && ArePicks(Picks(u, re, ci))
  {
    hide Extract, LongWords, LitsOf;
    if IsPick(u, re, ci) {
      PickExtract(u, re, ci);
      LitsOfOne([], PickWords(u, re, ci));
    } else {
      LinearExtract(u, re, ci);
      LitsOfOne(LongWords(u, re, ci), []);
    }
    hide IsPick, Linear;
  }

  lemma ConcatExtract(u: CaseTable, re: Regexp, ci: bool)
    requires re.op.Concat? && AreParts(u, re.op.subs, ci) && (WordsOf(u, re.op.subs, ci) == [] ==> !IsPair(re.op.subs))
    ensures Extract(u, re, ci) == LitsOf(WordsOf(u, re.op.subs, ci), PicksOf(u, re.op.subs, ci))
    ensures ArePicks(PicksOf(u, re.op.subs, ci))
  {
    hide *;
    var subs := re.op.subs;
    var words, picks := WordsOf(u, subs, ci), PicksOf(u, subs, ci);
    PartsCollect(u, subs, ci, [], []);
    PartsPick(u, subs, ci);
    KeptIsPick(picks);
    NothingInFront(words);
    NoTrie(u, subs, ci);
    ExtractConcat(u, re, ci, words, picks);
  }

  lemma ExtractConcat(u: CaseTable, re: Regexp, ci: bool, words: seq<Bytes>, picks: seq<seq<Bytes>>)
    requires re.op.Concat? && Collect(u, re.op.subs, ci, [], []) == (words, Kept([], picks))
    requires (words == [] ==> TrieReconstruct(u, re.op.subs, ci) == []) && forall w :: w in Kept([], picks) ==> |w| >= 2
    ensures Extract(u, re, ci) == LitsOf(words, picks)
  {
    hide Collect, TrieReconstruct, Kept;
    assert !AnyTooShort(Kept([], picks), 2);
  }

  lemma NothingInFront(words: seq<Bytes>)
    ensures [] + words == words
  {
  }

  lemma NoTrie(u: CaseTable, subs: seq<Regexp>, ci: bool)
    ensures !IsPair(subs) ==> TrieReconstruct(u, subs, ci) == []
  {
  }

  // ---------------------------------------------------------------- what is looked up, and where

  /** What looking up a word comes to: in folding mode a word with non-ASCII bytes is not looked for. */
  ghost predicate Looked(ci: bool, s: Bytes, w: Bytes) {
    if ci && !IsAscii(w) then |w| <= |s| else Occurs(w, Norm(ci, s))
  }

  /** The first word of a tree that begins with `\A` is a prefix, the last one of a tree that ends with `\z` a suffix,
      and all others are looked up anywhere. */
  ghost predicate WordsStand(words: seq<Bytes>, front: bool, end: bool, ci: bool, s: Bytes)
    requires words != []
  {
    var last := |words| - 1;
    && (front ==> At(words[0], Norm(ci, s), 0))
    && (end && !(front && last == 0) ==> At(words[last], Norm(ci, s), |s| - |words[last]|))
    && forall k :: 0 <= k <= last && !(front && k == 0) && !(end && k == last) ==> Looked(ci, s, words[k])
  }

  /** A set of alternatives is tested when it has at most 256 members, and none but ASCII ones when folding; a single
      word without others beside it is tested as it is. */
  predicate Usable(ci: bool, any: seq<Bytes>, alone: bool) {
    (alone && |any| == 1) || ((ci ==> forall k :: 0 <= k < |any| ==> IsAscii(any[k])) && |any| <= 256)
  }

  ghost predicate SomeLooked(ci: bool, s: Bytes, any: seq<Bytes>) {
    exists k :: 0 <= k < |any| && Looked(ci, s, any[k])
  }

  /** Lower-casing gives no ASCII capital. */
  ghost predicate LowersCapitals(u: CaseTable) {
    forall r :: !('A' as int <= u.lower(r) <= 'Z' as int)
  }

  predicate NoCapitals(w: Bytes) {
    forall k :: 0 <= k < |w| ==> !('A' as int <= w[k] <= 'Z' as int)
  }

  lemma NoCapitalsFold(w: Bytes, ci: bool)
    requires ci ==> NoCapitals(w)
    ensures Norm(ci, w) == w
  {
  }

  lemma {:induction false} SpelledLower(u: CaseTable, runes: seq<int>)
    requires LowersCapitals(u)
    ensures NoCapitals(LitString(u, runes, true))
  {
    if runes != [] {
      SpelledLower(u, runes[1..]);
    }
  }

  predicate AllLower(ws: seq<Bytes>, ci: bool) {
    ci ==> forall w :: w in ws ==> NoCapitals(w)
  }

  lemma {:induction false} WordsAreLower(u: CaseTable, re: Regexp, ci: bool)
    requires LowersCapitals(u)
    ensures AllLower(LongWords(u, re, ci), ci)
    decreases re, 0
  {
    hide NoCapitals, LowersCapitals;
    match re.op
    case Literal(runes) => SpelledLower(u, runes);
    case Capture(sub) => WordsAreLower(u, sub, ci);
    case Plus(sub) => WordsAreLower(u, sub, ci);
    case Repeat(sub, _, _) => WordsAreLower(u, sub, ci);
    case Concat(subs) => AllWordsAreLower(u, subs, ci);
    case _ =>
  }

  lemma {:induction false} AllWordsAreLower(u: CaseTable, subs: seq<Regexp>, ci: bool)
    requires LowersCapitals(u)
    ensures AllLower(WordsOf(u, subs, ci), ci)
    decreases subs, 1
  {
    if subs != [] {
      WordsAreLower(u, subs[0], ci);
      AllWordsAreLower(u, subs[1..], ci);
    }
  }

  lemma {:induction false} PickIsLower(u: CaseTable, re: Regexp, ci: bool)
    requires LowersCapitals(u) && IsPick(u, re, ci)
    ensures AllLower(PickWords(u, re, ci), ci)
    decreases re
  {
    match re.op
    case Capture(sub) => PickIsLower(u, sub, ci);
    case Plus(sub) => PickIsLower(u, sub, ci);
    case Repeat(sub, _, _) => PickIsLower(u, sub, ci);
    case Alternate(subs) =>
      hide NoCapitals;
      forall k | 0 <= k < |subs| ensures AllLower([Longest(LongWords(u, subs[k], ci))], ci) {
        WordsAreLower(u, subs[k], ci);
      }
  }

  lemma {:induction false} PicksAreLower(u: CaseTable, re: Regexp, ci: bool)
    requires LowersCapitals(u)
    ensures forall j :: 0 <= j < |Picks(u, re, ci)| ==> AllLower(Picks(u, re, ci)[j], ci)
    decreases re
  {
    hide AllLower, LowersCapitals, IsPick;
    match re.op
    case Capture(sub) => PicksAreLower(u, sub, ci);
    case Plus(sub) => PicksAreLower(u, sub, ci);
    case Repeat(sub, _, _) => PicksAreLower(u, sub, ci);
    case Concat(subs) => PartsAreLower(u, subs, ci);
    case _ =>
      if IsPick(u, re, ci) {
        PickIsLower(u, re, ci);
      }
  }

  lemma {:induction false} PartsAreLower(u: CaseTable, subs: seq<Regexp>, ci: bool)
    requires LowersCapitals(u)
    ensures forall j :: 0 <= j < |PicksOf(u, subs, ci)| ==> AllLower(PicksOf(u, subs, ci)[j], ci)
    decreases |subs|
  {
    hide AllLower, LowersCapitals, IsPick;
    if subs != [] {
      PartsAreLower(u, subs[1..], ci);
      if IsPick(u, subs[0], ci) {
        PickIsLower(u, subs[0], ci);
      }
    }
  }

  // ---------------------------------------------------------------- what is built from them

  lemma ContainsIsLooked(ci: bool, s: Bytes, w: Bytes)
    requires w != []
    ensures Contains(ci, s, w) <==> Looked(ci, s, w)
  {
  }

  lemma {:induction false} NoneIsShort(ws: seq<Bytes>)
    requires forall w :: w in ws ==> |w| >= 2
    ensures FilterShort(ws, 2) == ws
  {
    if ws != [] {
      var n := |ws| - 1;
      assert ws[n] in ws && forall w :: w in ws[..n] ==> w in ws;
      NoneIsShort(ws[..n]);
      assert FilterShort(ws, 2) == FilterShort(ws[..n], 2) + [ws[n]];
      hide FilterShort;
      assert ws == ws[..n] + [ws[n]];
    }
  }

  lemma {:induction false} AnchorsAreOutermost(re: Regexp)
    ensures HasBeginAnchor(re) <==> Leftmost(re).op.BeginText?
    ensures HasEndAnchor(re) <==> Rightmost(re).op.EndText?
    decreases re
  {
    match re.op
    case Capture(sub) => AnchorsAreOutermost(sub);
    case Concat(subs) =>
      if subs != [] {
        AnchorsAreOutermost(subs[0]);
        AnchorsAreOutermost(subs[|subs| - 1]);
      }
    case _ =>
  }

  ghost predicate LookedFrom(words: seq<Bytes>, from: nat, to: nat, ci: bool, s: Bytes) {
    forall k :: from <= k < to <= |words| ==> Looked(ci, s, words[k])
  }

  /** The composed test, for any slice of the words looked up in the middle. */
  lemma NeedlesDecide(words: seq<Bytes>, from: nat, to: nat, prefix: Bytes, suffix: Bytes, ci: bool, s: Bytes)
    requires from <= to <= |words| && forall w :: w in words ==> |w| >= 2
    ensures Accepts(Needles(ci, prefix, suffix, words[from..to]), s) <==>
              && (prefix != [] ==> At(prefix, Norm(ci, s), 0)) && (suffix != [] ==> At(suffix, Norm(ci, s), |s| - |suffix|))
              && LookedFrom(words, from, to, ci, s)
  {
    var middle := words[from..to];
    forall k | from <= k < to ensures Contains(ci, s, middle[k - from]) <==> Looked(ci, s, words[k]) {
      assert words[k] in words;
      ContainsIsLooked(ci, s, words[k]);
    }
    hide Contains, Looked, At, Norm;
    if forall k :: 0 <= k < |middle| ==> Contains(ci, s, middle[k]) {
      forall k | from <= k < to ensures Looked(ci, s, words[k]) {
        assert Contains(ci, s, middle[k - from]);
      }
    }
  }

  /** How many words the anchored tests take from the front and leave at the end. */
  function From(front: bool): nat {
    if front then 1 else 0
  }

  function To(words: seq<Bytes>, front: bool, end: bool): (to: nat)
    requires words != []
    ensures From(front) <= to <= |words|
  {
    if end && !(front && |words| == 1) then |words| - 1 else |words|
  }

  lemma BuildsNeedles(words: seq<Bytes>, ci: bool, front: bool, end: bool)
    requires words != []
    ensures var prefix := if front then words[0] else [];
            var suffix := if end && !(front && |words| == 1) then words[|words| - 1] else [];
            BuildMultiNeedle(words, ci, front, end)
              == Some(Needles(ci, prefix, suffix, words[From(front)..To(words, front, end)]))
  {
    var n := |words|;
    assert words[0..n] == words && words[1..n] == words[1..] && words[0..n - 1] == words[..n - 1];
    assert n == 1 ==> words[1..1] == [];
  }

  lemma StandMeans(words: seq<Bytes>, front: bool, end: bool, ci: bool, s: Bytes)
    requires words != []
    ensures WordsStand(words, front, end, ci, s) <==>
              && (front ==> At(words[0], Norm(ci, s), 0))
              && (end && !(front && |words| == 1) ==> At(words[|words| - 1], Norm(ci, s), |s| - |words[|words| - 1]|))
              && LookedFrom(words, From(front), To(words, front, end), ci, s)
  {
    hide At, Norm, Looked;
  }

  lemma MultiNeedleDecides(words: seq<Bytes>, ci: bool, front: bool, end: bool, s: Bytes)
    requires words != [] && forall w :: w in words ==> |w| >= 2
    ensures var plan := BuildMultiNeedle(words, ci, front, end);
            plan.Some? && (Accepts(plan.value, s) <==> WordsStand(words, front, end, ci, s))
  {
    hide *;
    var n := |words|;
    assert words[0] in words && words[n - 1] in words;
    var prefix, suffix := if front then words[0] else [], if end && !(front && n == 1) then words[n - 1] else [];
    BuildsNeedles(words, ci, front, end);
    NeedlesDecide(words, From(front), To(words, front, end), prefix, suffix, ci, s);
    StandMeans(words, front, end, ci, s);
  }

  lemma SortedStand(words: seq<Bytes>, ci: bool, s: Bytes)
    requires words != []
    ensures SortLongest(words) != []
    ensures WordsStand(SortLongest(words), false, false, ci, s) <==> WordsStand(words, false, false, ci, s)
    ensures forall w :: w in SortLongest(words) <==> w in words
  {
    SortLongestMembers(words);
    hide SortLongest, Looked;
    assert words[0] in words;
    var sorted := SortLongest(words);
    assert (forall k :: 0 <= k < |sorted| ==> Looked(ci, s, sorted[k])) <==> forall w :: w in sorted ==> Looked(ci, s, w);
    assert (forall k :: 0 <= k < |words| ==> Looked(ci, s, words[k])) <==> forall w :: w in words ==> Looked(ci, s, w);
  }

  lemma AllDecides(re: Regexp, words: seq<Bytes>, ci: bool, s: Bytes)
    requires words != [] && forall w :: w in words ==> |w| >= 2
    ensures var plan := BuildAll(re, words, ci);
            plan.Some? &&
            (Accepts(plan.value, s) <==> WordsStand(words, Leftmost(re).op.BeginText?, Rightmost(re).op.EndText?, ci, s))
  {
    hide WordsStand, BuildMultiNeedle, FilterShort, SortLongest, Accepts;
    NoneIsShort(words);
    AnchorsAreOutermost(re);
    assert words[0] in words && words[|words| - 1] in words;
    SortedStand(words, ci, s);
    MultiNeedleDecides(SortLongest(words), ci, false, false, s);
    MultiNeedleDecides(words, ci, HasBeginAnchor(re), HasEndAnchor(re), s);
  }

  lemma AnyDecides(any: seq<Bytes>, ci: bool, s: Bytes)
    requires any != [] && AllLower(any, ci) && forall w :: w in any ==> |w| >= 2
    ensures BuildAny(any, ci).Some? <==> Usable(ci, any, true)
    ensures BuildAny(any, ci).Some? ==> (Accepts(BuildAny(any, ci).value, s) <==> SomeLooked(ci, s, any))
  {
    forall k | 0 <= k < |any| ensures Norm(ci, any[k]) == any[k] && (Contains(ci, s, any[k]) <==> Looked(ci, s, any[k])) {
      assert any[k] in any;
      NoCapitalsFold(any[k], ci);
      ContainsIsLooked(ci, s, any[k]);
    }
    hide Contains, Norm;
  }

  /** The tests that stand for the words and for the alternation with the fewest words. */
  ghost predicate Lets(words: seq<Bytes>, picks: seq<seq<Bytes>>, front: bool, end: bool, ci: bool, s: Bytes) {
    && (words != [] ==> WordsStand(words, front, end, ci, s))
    && forall i :: IsFewest(picks, i) && Usable(ci, picks[i], words == []) ==> SomeLooked(ci, s, picks[i])
  }

  /** Something is tested: a word, or an alternation. */
  ghost predicate Tests(words: seq<Bytes>, picks: seq<seq<Bytes>>, ci: bool) {
    words != [] || exists i :: IsFewest(picks, i) && Usable(ci, picks[i], true)
  }

  lemma OnlyFewest(picks: seq<seq<Bytes>>, i: int)
    requires IsFewest(picks, i)
    ensures forall j :: IsFewest(picks, j) ==> j == i
  {
    forall j | IsFewest(picks, j) ensures j == i {
      assert |picks[j]| == |picks[i]|;
    }
  }

  lemma BothDecide(re: Regexp, words: seq<Bytes>, any: seq<Bytes>, ci: bool, s: Bytes)
    requires words != [] && any != [] && AllLower(any, ci)
    requires (forall w :: w in words ==> |w| >= 2) && (forall w :: w in any ==> |w| >= 2)
    ensures var plan := BuildCombined(re, words, any, ci);
            plan.Some? &&
            (Accepts(plan.value, s) <==>
               && WordsStand(words, Leftmost(re).op.BeginText?, Rightmost(re).op.EndText?, ci, s)
               && (Usable(ci, any, false) ==> SomeLooked(ci, s, any)))
  {
    AllDecides(re, words, ci, s);
    AnyDecides(any, ci, s);
    hide BuildAll, BuildAny, WordsStand, SomeLooked, IsAscii;
  }

  /** The literal part of the test. */
  lemma LitsDecide(re: Regexp, words: seq<Bytes>, picks: seq<seq<Bytes>>, ci: bool, s: Bytes)
    requires (words != [] || picks != []) && ArePicks(picks) && forall w :: w in words ==> |w| >= 2
    requires forall j :: 0 <= j < |picks| ==> AllLower(picks[j], ci)
    ensures var plan := BuildFromLits(re, LitsOf(words, picks), ci);
            && (plan.Some? <==> Tests(words, picks, ci))
            && (plan.Some? ==>
                  (Accepts(plan.value, s) <==> Lets(words, picks, Leftmost(re).op.BeginText?, Rightmost(re).op.EndText?, ci, s)))
  {
    hide AllLower, WordsStand, SomeLooked, Accepts, Kept, BuildAll, BuildAny, BuildCombined;
    KeptIsPick(picks);
    if picks == [] {
      AllDecides(re, words, ci, s);
    } else {
      var i := SomeFewest(picks);
      OnlyFewest(picks, i);
      KeptIsFewest([], picks);
      hide IsFewest, Usable;
      if words == [] {
        AnyDecides(picks[i], ci, s);
      } else {
        BothDecide(re, words, picks[i], ci, s);
      }
    }
  }

  /** Exactly when there is a prefilter, and exactly what it lets through. */
  lemma Decides(u: CaseTable, re: Regexp, s: Bytes)
    requires LowersCapitals(u) && Simple(u, re, HasFold(re))
    ensures var ci := HasFold(re);
            var words, picks := LongWords(u, re, ci), Picks(u, re, ci);
            && (Build(u, re).Some? <==> Tests(words, picks, ci) || (words == [] && picks == [] && MinLen(re) >= 4))
            && (Build(u, re).Some? ==>
                  (Accepts(Build(u, re).value, s) <==>
                     || (ci && !IsAscii(s) && (words != [] || picks != []))
                     || (&& (MinLen(re) >= 4 ==> |s| >= MinLen(re))
                         && Lets(words, picks, Leftmost(re).op.BeginText?, Rightmost(re).op.EndText?, ci, s))))
  {
    hide *;
    var ci := HasFold(re);
    var words, picks := LongWords(u, re, ci), Picks(u, re, ci);
    SimpleExtract(u, re, ci);
    WordsAreLong(u, re, ci);
    PicksAreLower(u, re, ci);
    LitsAreNone(words, picks);
    BuildMeans(u, re, s);
    if words == [] && picks == [] {
      NoneLets(Leftmost(re).op.BeginText?, Rightmost(re).op.EndText?, ci, s);
    } else {
      LitsDecide(re, words, picks, ci, s);
    }
  }

  /** The length and ASCII guards around the literal part. */
  lemma BuildMeans(u: CaseTable, re: Regexp, s: Bytes)
    ensures var ci := HasFold(re);
            var lits := Extract(u, re, ci);
            var pf := BuildFromLits(re, lits, ci);
            && (Build(u, re).Some? <==> if lits.NoLits? then MinLen(re) >= 4 else pf.Some?)
            && (Build(u, re).Some? ==>
                  (Accepts(Build(u, re).value, s) <==>
                     if lits.NoLits? then |s| >= MinLen(re)
                     else (ci && !IsAscii(s)) || ((MinLen(re) >= 4 ==> |s| >= MinLen(re)) && Accepts(pf.value, s))))
  {
    hide Extract, HasFold, MinLen, BuildFromLits, IsAscii;
    var least, pf := MinLen(re), BuildFromLits(re, Extract(u, re, HasFold(re)), HasFold(re));
    if pf.Some? {
      var guarded := Both(AtLeast(least), pf.value);
      assert Accepts(guarded, s) <==> |s| >= least && Accepts(pf.value, s);
      assert Accepts(AsciiOnly(guarded), s) <==> !IsAscii(s) || Accepts(guarded, s);
    }
  }

  lemma LitsAreNone(words: seq<Bytes>, picks: seq<seq<Bytes>>)
    requires ArePicks(picks)
    ensures LitsOf(words, picks).NoLits? <==> words == [] && picks == []
  {
    KeptIsPick(picks);
  }

  lemma NoneLets(front: bool, end: bool, ci: bool, s: Bytes)
    ensures Lets([], [], front, end, ci, s) && !Tests([], [], ci)
  {
  }

  // ---------------------------------------------------------------- words between gaps

  /** A character, a class, or one of them repeated or optional. */
  predicate IsOpenGap(g: Regexp) {
    match g.op
    case AnyChar => true
    case AnyCharNotNL => true
    case CharClass(_) => true
    case Star(sub) => IsChar(sub)
    case Plus(sub) => IsChar(sub)
    case Quest(sub) => IsChar(sub)
    case _ => false
  }

  predicate IsChar(re: Regexp) {
    re.op.AnyChar? || re.op.AnyCharNotNL? || re.op.CharClass?
  }

  function Word(runes: seq<int>, fold: bool): Regexp {
    Regexp(Literal(runes), fold)
  }

  /** Every word with its gap behind it. */
  function Spaced(words: seq<seq<int>>, gaps: seq<Regexp>, fold: bool): seq<Regexp>
    requires |gaps| == |words|
  {
    if words == [] then [] else [Word(words[0], fold), gaps[0]] + Spaced(words[1..], gaps[1..], fold)
  }

  function Spell(u: CaseTable, words: seq<seq<int>>, fold: bool): (ts: seq<Bytes>)
    ensures |ts| == |words|
  {
    seq(|words|, k requires 0 <= k < |words| => LitString(u, words[k], fold))
  }

  predicate AreLong(u: CaseTable, words: seq<seq<int>>, fold: bool) {
    forall k :: 0 <= k < |words| ==> 0xFFFD !in words[k] && |LitString(u, words[k], fold)| >= 2
  }

  predicate AreGaps(gaps: seq<Regexp>, fold: bool) {
    forall k :: 0 <= k < |gaps| ==> IsOpenGap(gaps[k]) && (HasFold(gaps[k]) ==> fold)
  }

  function OneOfWords(words: seq<seq<int>>, fold: bool): Regexp {
    Regexp(Alternate(seq(|words|, k requires 0 <= k < |words| => Word(words[k], fold))), fold)
  }

  function Tail(any: seq<seq<int>>, fold: bool): seq<Regexp> {
    if any == [] then [] else [OneOfWords(any, fold)]
  }

  /** `w1 gap w2 gap ... gap (a|b|...)`. */
  function Sentence(words: seq<seq<int>>, gaps: seq<Regexp>, any: seq<seq<int>>, fold: bool): Regexp
    requires |gaps| == |words|
  {
    Regexp(Concat(Spaced(words, gaps, fold) + Tail(any, fold)), fold)
  }

  lemma GapSpellsNothing(u: CaseTable, g: Regexp, ci: bool)
    requires IsOpenGap(g)
    ensures Linear(u, g, ci) && !IsPick(u, g, ci) && LongWords(u, g, ci) == []
  {
  }

  lemma GapEnds(g: Regexp)
    requires IsOpenGap(g)
    ensures Leftmost(g) == g == Rightmost(g) && !g.op.BeginText? && !g.op.EndText?
  {
  }

  lemma WordSpells(u: CaseTable, runes: seq<int>, fold: bool)
    requires 0xFFFD !in runes && |LitString(u, runes, fold)| >= 2
    ensures var w := Word(runes, fold);
            && Linear(u, w, fold) && !IsPick(u, w, fold) && LongWords(u, w, fold) == [LitString(u, runes, fold)]
            && HasFold(w) == fold && Leftmost(w) == w == Rightmost(w)
  {
  }

  lemma ChoicePicks(u: CaseTable, any: seq<seq<int>>, fold: bool)
    requires any != [] && AreLong(u, any, fold)
    ensures var re := OneOfWords(any, fold);
            && IsPick(u, re, fold) && PickWords(u, re, fold) == Spell(u, any, fold) && LongWords(u, re, fold) == []
            && HasFold(re) == fold && Leftmost(re) == re == Rightmost(re)
  {
    forall k | 0 <= k < |any|
      ensures var w := Word(any[k], fold);
              && Linear(u, w, fold) && LongWords(u, w, fold) == [LitString(u, any[k], fold)] && HasFold(w) == fold
              && Longest(LongWords(u, w, fold)) == LitString(u, any[k], fold)
    {
      WordSpells(u, any[k], fold);
    }
    hide Linear, LongWords, LitString, Longest;
  }

  /** The children spell these words and pick from these alternations; none is folded unless all may be. */
  ghost predicate PartsAre(u: CaseTable, subs: seq<Regexp>, fold: bool, words: seq<Bytes>, picks: seq<seq<Bytes>>) {
    && AreParts(u, subs, fold) && WordsOf(u, subs, fold) == words && PicksOf(u, subs, fold) == picks
    && forall k :: 0 <= k < |subs| ==> HasFold(subs[k]) ==> fold
  }

  lemma TwoMore(u: CaseTable, w: Regexp, g: Regexp, rest: seq<Regexp>, fold: bool, words: seq<Bytes>, picks: seq<seq<Bytes>>)
    requires Linear(u, w, fold) && !IsPick(u, w, fold) && (HasFold(w) ==> fold)
    requires Linear(u, g, fold) && !IsPick(u, g, fold) && (HasFold(g) ==> fold) && LongWords(u, g, fold) == []
    requires PartsAre(u, rest, fold, words, picks)
    ensures PartsAre(u, [w, g] + rest, fold, LongWords(u, w, fold) + words, picks)
  {
    hide LongWords, IsPick, Linear, HasFold, PickWords;
    var subs := [w, g] + rest;
    assert subs[1..] == [g] + rest && ([g] + rest)[1..] == rest;
    assert WordsOf(u, [g] + rest, fold) == words && PicksOf(u, [g] + rest, fold) == picks;
    hide WordsOf, PicksOf;
    assert forall k :: 2 <= k < |subs| ==> subs[k] == rest[k - 2];
  }

  lemma {:induction false} SpacedParts(u: CaseTable, words: seq<seq<int>>, gaps: seq<Regexp>, fold: bool, tail: seq<Regexp>,
                                       picks: seq<seq<Bytes>>)
    requires |gaps| == |words| && AreLong(u, words, fold) && AreGaps(gaps, fold) && PartsAre(u, tail, fold, [], picks)
    ensures PartsAre(u, Spaced(words, gaps, fold) + tail, fold, Spell(u, words, fold), picks)
    decreases |words|
  {
    hide PartsAre, LitString, IsOpenGap, HasFold, Linear, LongWords, IsPick;
    if words == [] {
      assert Spaced(words, gaps, fold) + tail == tail && Spell(u, words, fold) == [];
    } else {
      var rest := Spaced(words[1..], gaps[1..], fold) + tail;
      var w, g := Word(words[0], fold), gaps[0];
      assert Spaced(words, gaps, fold) + tail == [w, g] + rest;
      assert Spell(u, words, fold) == [LitString(u, words[0], fold)] + Spell(u, words[1..], fold);
      SpacedParts(u, words[1..], gaps[1..], fold, tail, picks);
      WordSpells(u, words[0], fold);
      GapSpellsNothing(u, g, fold);
      TwoMore(u, w, g, rest, fold, Spell(u, words[1..], fold), picks);
    }
  }

  lemma {:induction false} SpacedEnds(words: seq<seq<int>>, gaps: seq<Regexp>, fold: bool)
    requires |gaps| == |words| > 0
    ensures var subs := Spaced(words, gaps, fold);
            subs != [] && subs[0] == Word(words[0], fold) && subs[|subs| - 1] == gaps[|gaps| - 1]
    decreases |words|
  {
    if |words| == 1 {
      assert Spaced(words[1..], gaps[1..], fold) == [];
    } else {
      SpacedEnds(words[1..], gaps[1..], fold);
    }
  }

  lemma TailParts(u: CaseTable, any: seq<seq<int>>, fold: bool)
    requires AreLong(u, any, fold)
    ensures PartsAre(u, Tail(any, fold), fold, [], if any == [] then [] else [Spell(u, any, fold)])
  {
    hide IsPick, Linear, LongWords, PickWords, OneOfWords, AreLong, HasFold, Spell;
    if any != [] {
      ChoicePicks(u, any, fold);
      OnePart(u, OneOfWords(any, fold), fold);
      hide WordsOf, PicksOf;
    }
  }

  lemma OnePart(u: CaseTable, re: Regexp, ci: bool)
    ensures WordsOf(u, [re], ci) == LongWords(u, re, ci)
    ensures PicksOf(u, [re], ci) == if IsPick(u, re, ci) then [PickWords(u, re, ci)] else []
  {
    hide LongWords, IsPick, PickWords;
    assert [re][1..] == [] && WordsOf(u, [], ci) == [] && PicksOf(u, [], ci) == [];
    assert LongWords(u, re, ci) + [] == LongWords(u, re, ci);
  }

  lemma SentenceEnds(words: seq<seq<int>>, gaps: seq<Regexp>, any: seq<seq<int>>, fold: bool)
    requires |gaps| == |words| > 0 && AreGaps(gaps, fold)
    ensures var re := Sentence(words, gaps, any, fold); !Leftmost(re).op.BeginText? && !Rightmost(re).op.EndText?
  {
    SpacedEnds(words, gaps, fold);
    GapEnds(gaps[|gaps| - 1]);
    var subs := Spaced(words, gaps, fold) + Tail(any, fold);
    assert subs[0] == Word(words[0], fold);
    assert Leftmost(subs[0]) == subs[0] && Rightmost(OneOfWords(any, fold)) == OneOfWords(any, fold);
    assert subs[|subs| - 1] == if any == [] then gaps[|gaps| - 1] else OneOfWords(any, fold);
    hide Spaced;
  }

  lemma SentenceParts(u: CaseTable, words: seq<seq<int>>, gaps: seq<Regexp>, any: seq<seq<int>>, fold: bool)
    requires |gaps| == |words| > 0 && AreLong(u, words, fold) && AreGaps(gaps, fold) && AreLong(u, any, fold)
    ensures var re := Sentence(words, gaps, any, fold);
            && HasFold(re) == fold && Simple(u, re, fold) && LongWords(u, re, fold) == Spell(u, words, fold)
            && Picks(u, re, fold) == (if any == [] then [] else [Spell(u, any, fold)])
  {
    hide Spaced, Tail, Spell, AreLong, AreGaps, WordsOf, PicksOf, AreParts;
    var picks := if any == [] then [] else [Spell(u, any, fold)];
    TailParts(u, any, fold);
    SpacedParts(u, words, gaps, fold, Tail(any, fold), picks);
    ConcatParts(u, Spaced(words, gaps, fold) + Tail(any, fold), fold, Spell(u, words, fold), picks);
  }

  lemma ConcatParts(u: CaseTable, subs: seq<Regexp>, fold: bool, words: seq<Bytes>, picks: seq<seq<Bytes>>)
    requires PartsAre(u, subs, fold, words, picks) && words != []
    ensures var re := Regexp(Concat(subs), fold);
            HasFold(re) == fold && Simple(u, re, fold) && LongWords(u, re, fold) == words && Picks(u, re, fold) == picks
  {
    hide WordsOf, PicksOf, AreParts;
  }

  /** Words of two bytes and more, one behind the other with gaps between them and perhaps an alternation of words
      behind them: a value is let through if and only if it is long enough, every word is found in it, and one of the
      alternatives is; folding, a value with non-ASCII bytes always is. */
  lemma SentenceIsDecided(u: CaseTable, words: seq<seq<int>>, gaps: seq<Regexp>, any: seq<seq<int>>, fold: bool, s: Bytes)
    requires LowersCapitals(u) && |gaps| == |words| > 0
    requires AreLong(u, words, fold) && AreGaps(gaps, fold) && AreLong(u, any, fold)
    ensures var re := Sentence(words, gaps, any, fold);
            && Build(u, re).Some?
            && (Accepts(Build(u, re).value, s) <==>
                  || (fold && !IsAscii(s))
                  || (&& (MinLen(re) >= 4 ==> |s| >= MinLen(re))
                      && (forall k :: 0 <= k < |words| ==> Looked(fold, s, LitString(u, words[k], fold)))
                      && (any != [] && Usable(fold, Spell(u, any, fold), false) ==>
                            exists k :: 0 <= k < |any| && Looked(fold, s, LitString(u, any[k], fold)))))
  {
    hide *;
    var re := Sentence(words, gaps, any, fold);
    var picks := if any == [] then [] else [Spell(u, any, fold)];
    SentenceParts(u, words, gaps, any, fold);
    SentenceEnds(words, gaps, any, fold);
    Decides(u, re, s);
    LetsSentence(u, words, any, fold, s);
    WordsTest(Spell(u, words, fold), picks, fold);
  }

  lemma WordsTest(words: seq<Bytes>, picks: seq<seq<Bytes>>, ci: bool)
    requires words != []
    ensures Tests(words, picks, ci)
  {
  }

  lemma LetsSentence(u: CaseTable, words: seq<seq<int>>, any: seq<seq<int>>, fold: bool, s: Bytes)
    requires words != []
    ensures Lets(Spell(u, words, fold), if any == [] then [] else [Spell(u, any, fold)], false, false, fold, s) <==>
              && (forall k :: 0 <= k < |words| ==> Looked(fold, s, LitString(u, words[k], fold)))
              && (any != [] && Usable(fold, Spell(u, any, fold), false) ==>
                    exists k :: 0 <= k < |any| && Looked(fold, s, LitString(u, any[k], fold)))
  {
    var alts := Spell(u, any, fold);
    SpellsLooked(u, words, fold, s);
    SpellsLooked(u, any, fold, s);
    assert IsFewest([alts], 0);
    OnlyFewest([alts], 0);
    NoFewest();
    hide IsFewest, Usable, LitString, Looked, Spell;
  }

  lemma SpellsLooked(u: CaseTable, words: seq<seq<int>>, fold: bool, s: Bytes)
    ensures var ws := Spell(u, words, fold);
            && (words != [] ==>
                  (WordsStand(ws, false, false, fold, s) <==>
                     forall k :: 0 <= k < |words| ==> Looked(fold, s, LitString(u, words[k], fold))))
            && (SomeLooked(fold, s, ws) <==> exists k :: 0 <= k < |words| && Looked(fold, s, LitString(u, words[k], fold)))
  {
    var ws := Spell(u, words, fold);
    forall k | 0 <= k < |words| ensures Looked(fold, s, ws[k]) <==> Looked(fold, s, LitString(u, words[k], fold)) {
    }
    hide Spell, Looked, LitString;
    if k :| 0 <= k < |words| && Looked(fold, s, LitString(u, words[k], fold)) {
      assert Looked(fold, s, ws[k]);
    }
    if words != [] && WordsStand(ws, false, false, fold, s) {
      forall k | 0 <= k < |words| ensures Looked(fold, s, LitString(u, words[k], fold)) {
        assert Looked(fold, s, ws[k]);
      }
    }
  }

  lemma NoFewest()
    ensures forall i :: !IsFewest([], i)
  {
  }
}
