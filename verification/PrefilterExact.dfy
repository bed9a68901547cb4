/** Regexes the prefilter decides by itself: it accepts an input exactly when the regex matches it. */
module PrefilterExact {
  import opened Bytes
  import opened Regex
  import opened Literals
  import opened Prefilter
  import opened PrefilterLimits
  import opened Wrappers

  type Word = seq<int>

  // ---------------------------------------------------------------- the regexes

  function Leaves(words: seq<Word>): (subs: seq<Regexp>)
    ensures |subs| == |words|
  {
    seq(|words|, k requires 0 <= k < |words| => Node(Literal(words[k])))
  }

  function Texts(u: CaseTable, words: seq<Word>): (ts: seq<Bytes>)
    ensures |ts| == |words|
  {
    seq(|words|, k requires 0 <= k < |words| => Text(u, words[k]))
  }

  /** `w1|w2|...` */
  function Choice(words: seq<Word>): Regexp {
    Node(Alternate(Leaves(words)))
  }

  /** `a(?:w1|w2|...)`, as the parser factors words with a common first letter. */
  function Shared(a: byte, words: seq<Word>): Regexp {
    Node(Concat([Node(Literal([a])), Choice(words)]))
  }

  predicate AreWords(u: CaseTable, words: seq<Word>, least: nat) {
    && 1 <= |words| <= 256
    && forall k :: 0 <= k < |words| ==> IsWord(words[k]) && |Text(u, words[k])| >= least
  }

  // ---------------------------------------------------------------- what is extracted

  lemma LeavesTail(u: CaseTable, words: seq<Word>)
    requires words != []
    ensures Leaves(words)[1..] == Leaves(words[1..]) && Texts(u, words)[1..] == Texts(u, words[1..])
    ensures Leaves(words)[0] == Node(Literal(words[0])) && Texts(u, words) == [Text(u, words[0])] + Texts(u, words[1..])
  {
  }

  lemma {:induction false} ChoiceBranches(u: CaseTable, words: seq<Word>)
    requires forall k :: 0 <= k < |words| ==> IsWord(words[k]) && |Text(u, words[k])| >= 2
    ensures BranchLits(u, Leaves(words), false) == Texts(u, words)
    decreases |words|
  {
    if words != [] {
      LeavesTail(u, words);
      ChoiceBranches(u, words[1..]);
      var t := Text(u, words[0]);
      assert Extract(u, Leaves(words)[0], false) == AllOf([t]) && Longest([t]) == t;
    }
  }

  lemma {:induction false} ChoiceSuffixes(u: CaseTable, words: seq<Word>)
    requires forall k :: 0 <= k < |words| ==> IsWord(words[k]) && |Text(u, words[k])| >= 1
    ensures AllSuffixes(u, Leaves(words), false) == Texts(u, words)
    decreases |words|
  {
    if words != [] {
      LeavesTail(u, words);
      ChoiceSuffixes(u, words[1..]);
      assert RawSuffixes(u, Leaves(words)[0], false) == [Text(u, words[0])];
    }
  }

  lemma ChoiceIsPlain(u: CaseTable, words: seq<Word>)
    requires u.Valid()
    ensures Plain(u, Choice(words)) && !HasBeginAnchor(Choice(words)) && !HasEndAnchor(Choice(words))
    ensures LedSuffixes(u, Choice(words), false)
  {
    forall k | 0 <= k < |words| ensures Plain(u, Leaves(words)[k]) && LedSuffixes(u, Leaves(words)[k], false) {
      WordIsPlain(u, words[k]);
    }
  }

  lemma ChoiceExtract(u: CaseTable, words: seq<Word>)
    requires AreWords(u, words, 2)
    ensures Extract(u, Choice(words), false) == AnyOf(Texts(u, words))
  {
    ChoiceBranches(u, words);
  }

  lemma {:induction false} PrefixedAll(a: byte, ws: seq<Bytes>)
    requires forall k :: 0 <= k < |ws| ==> ws[k] != []
    ensures |Prefixed([a], ws)| == |ws| && forall k :: 0 <= k < |ws| ==> Prefixed([a], ws)[k] == [a] + ws[k]
    decreases |ws|
  {
    if ws != [] {
      PrefixedAll(a, ws[1..]);
    }
  }

  /** Neither child of a factored alternation is a mandatory literal, so the trie is rebuilt. */
  lemma SharedCollects(u: CaseTable, a: byte, words: seq<Word>)
    requires a < 128
    ensures Collect(u, [Node(Literal([a as int])), Choice(words)], false, [], []).0 == []
  {
    var l, alt := Node(Literal([a as int])), Choice(words);
    LetterText(u, a);
    assert [l, alt] == [l] + ([alt] + []);
    assert Extract(u, l, false) == NoLits;
    assert Extract(u, alt, false).NoLits? || Extract(u, alt, false).AnyOf?;
    CollectOne(u, l, [alt] + [], [], []);
    CollectOne(u, alt, [], [], []);
  }

  lemma SharedTrie(u: CaseTable, a: byte, words: seq<Word>)
    requires a < 128 && AreWords(u, words, 1)
    ensures TrieReconstruct(u, [Node(Literal([a as int])), Choice(words)], false) == Prefixed([a], Texts(u, words))
    ensures Prefixed([a], Texts(u, words)) != []
  {
    ChoiceSuffixes(u, words);
    var l, alt := Node(Literal([a as int])), Choice(words);
    assert RawSuffixes(u, alt, false) == Texts(u, words);
    LetterRaw(u, a);
    TrieOf(u, l, alt, [a], Texts(u, words));
    hide TrieReconstruct, RawLiteral, RawSuffixes, Prefixed;
    PrefixedAll(a, Texts(u, words));
  }

  lemma SharedExtract(u: CaseTable, a: byte, words: seq<Word>)
    requires a < 128 && AreWords(u, words, 1)
    ensures Extract(u, Shared(a, words), false) == AnyOf(Prefixed([a], Texts(u, words)))
  {
    SharedCollects(u, a, words);
    SharedTrie(u, a, words);
  }

  // ---------------------------------------------------------------- what the test accepts

  /** An any-of test that was built for needles of two bytes and more accepts only what holds one of them. */
  lemma AnyOfMeans(u: CaseTable, re: Regexp, any: seq<Bytes>, s: Bytes)
    requires !HasFold(re) && Extract(u, re, false) == AnyOf(any) && 1 <= |any| <= MAX_NEEDLES
    requires forall k :: 0 <= k < |any| ==> |any[k]| >= 2
    ensures Build(u, re).Some? && (Accepts(Build(u, re).value, s) ==> exists k :: 0 <= k < |any| && Occurs(any[k], s))
  {
    assert BuildFromLits(re, AnyOf(any), false) == Some(OneOf(false, any));
    BuildKeepsTest(u, re, AnyOf(any), OneOf(false, any), s);
    OneOfMeans(any, s);
  }

  lemma OneOfMeans(any: seq<Bytes>, s: Bytes)
    requires any != []
    ensures Accepts(OneOf(false, any), s) ==> exists k :: 0 <= k < |any| && Occurs(any[k], s)
  {
    if |any| == 1 && Accepts(OneOf(false, any), s) {
      assert Occurs(any[0], s);
    }
  }

  lemma LeafMatches(u: CaseTable, words: seq<Word>, k: int, s: Bytes, p: int)
    requires 0 <= k < |words| && IsWord(words[k]) && At(Text(u, words[k]), s, p)
    ensures Match(u, Choice(words), s, p, p + |Text(u, words[k])|)
  {
    var q := p + |Text(u, words[k])|;
    WordMatchesItself(u, words[k], s, p, q);
    assert Match(u, Leaves(words)[k], s, p, q);
  }

  lemma ChoiceIsAdmissible(u: CaseTable, words: seq<Word>)
    requires u.Valid() && AreWords(u, words, 2)
    ensures Admissible(u, Choice(words))
  {
    ChoiceIsPlain(u, words);
    ChoiceExtract(u, words);
  }

  /** An alternation of words: the prefilter accepts an input if and only if the regex matches it. */
  lemma ChoiceIsDecided(u: CaseTable, words: seq<Word>, s: Bytes)
    requires u.Valid() && AreWords(u, words, 2)
    ensures Build(u, Choice(words)).Some?
    ensures Accepts(Build(u, Choice(words)).value, s) <==> Matches(u, Choice(words), s)
  {
    var re := Choice(words);
    ChoiceIsAdmissible(u, words);
    PrefilterSound(u, re);
    ChoiceExtract(u, words);
    AnyOfMeans(u, re, Texts(u, words), s);
    if Accepts(Build(u, re).value, s) {
      var k :| 0 <= k < |words| && Occurs(Texts(u, words)[k], s);
      var p :| 0 <= p && p + |Texts(u, words)[k]| <= |s| && At(Texts(u, words)[k], s, p);
      LeafMatches(u, words, k, s, p);
      assert Matches(u, re, s);
    }
  }

  lemma SharedIsAdmissible(u: CaseTable, a: byte, words: seq<Word>)
    requires u.Valid() && a < 128 && AreWords(u, words, 1)
    ensures Admissible(u, Shared(a, words)) && !HasFold(Shared(a, words))
  {
    hide Extract, AreWords, Choice, Texts, Text, LedSuffixes, RawSuffixes, MinLen;
    ChoiceIsPlain(u, words);
    WordIsPlain(u, [a as int]);
    SharedExtract(u, a, words);
    PairIsPlain(u, Node(Literal([a as int])), Choice(words));
    hide HasFold, FoldNormal, TrieSafe;
  }

  lemma PairIsPlain(u: CaseTable, l: Regexp, alt: Regexp)
    requires Plain(u, l) && Plain(u, alt) && LedSuffixes(u, alt, false)
    ensures Plain(u, Node(Concat([l, alt])))
  {
    hide Collect, TrieReconstruct, LedSuffixes;
  }

  lemma SharedMatches(u: CaseTable, a: byte, words: seq<Word>, k: int, s: Bytes, p: int)
    requires a < 128 && 0 <= k < |words| && IsWord(words[k]) && At([a] + Text(u, words[k]), s, p)
    ensures Match(u, Shared(a, words), s, p, p + 1 + |Text(u, words[k])|)
  {
    hide LitString, MatchRunes, MatchAll, Choice;
    var q := p + 1 + |Text(u, words[k])|;
    AtHalves([a], Text(u, words[k]), s, p);
    LetterText(u, a);
    WordMatchesItself(u, [a as int], s, p, p + 1);
    LeafMatches(u, words, k, s, p + 1);
    PairMatches(u, Node(Literal([a as int])), Choice(words), s, p, p + 1, q);
  }

  /** Words sharing a factored first letter: rebuilt, the prefilter again accepts exactly what the regex matches. */
  lemma SharedIsDecided(u: CaseTable, a: byte, words: seq<Word>, s: Bytes)
    requires u.Valid() && a < 128 && AreWords(u, words, 1)
    ensures Build(u, Shared(a, words)).Some?
    ensures Accepts(Build(u, Shared(a, words)).value, s) <==> Matches(u, Shared(a, words), s)
  {
    var re, ts := Shared(a, words), Texts(u, words);
    var any := Prefixed([a], ts);
    SharedIsAdmissible(u, a, words);
    PrefilterSound(u, re);
    SharedExtract(u, a, words);
    PrefixedAll(a, ts);
    AnyOfMeans(u, re, any, s);
    if Accepts(Build(u, re).value, s) {
      var k :| 0 <= k < |any| && Occurs(any[k], s);
      var p :| 0 <= p && p + |any[k]| <= |s| && At(any[k], s, p);
      SharedMatches(u, a, words, k, s, p);
      assert Matches(u, re, s);
    }
  }
}
