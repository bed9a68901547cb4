/** The minimum length is not only a bound: on regexes of the usual leaves it is the length of the shortest match. */
module PrefilterMinLen {
  import opened Bytes
  import opened Utf8
  import opened Regex

  /** One byte is enough for the class: it has an ASCII member, or U+FFFD, which any invalid byte decodes to. */
  predicate HasShortMember(ranges: seq<(int, int)>) {
    InClass(ranges, RUNE_ERROR) || exists b: byte :: b < 128 && InClass(ranges, b)
  }

  /** A tree without assertions, NoMatch or empty ranges of repetition, whose literals are scalar values and whose
      classes can be matched by one byte. */
  predicate CanMatch(re: Regexp)
    decreases re
  {
    match re.op
    case EmptyMatch => true
    case Literal(runes) => forall k :: 0 <= k < |runes| ==> IsScalar(runes[k])
    case CharClass(ranges) => HasShortMember(ranges)
    case AnyCharNotNL => true
    case AnyChar => true
    case Capture(sub) => CanMatch(sub)
    case Star(sub) => CanMatch(sub)
    case Plus(sub) => CanMatch(sub)
    case Quest(sub) => CanMatch(sub)
    case Repeat(sub, min, max) => CanMatch(sub) && (max < 0 || min <= max)
    case Concat(subs) => forall k :: 0 <= k < |subs| ==> CanMatch(subs[k])
    case Alternate(subs) => subs != [] && forall k :: 0 <= k < |subs| ==> CanMatch(subs[k])
    case _ => false
  }

  /** `t` is matched by `re` wherever it stands. */
  ghost predicate AlwaysMatched(u: CaseTable, re: Regexp, t: Bytes) {
    forall s: Bytes, i: int :: At(t, s, i) ==> Match(u, re, s, i, i + |t|)
  }

  ghost predicate AllMatched(u: CaseTable, subs: seq<Regexp>, t: Bytes) {
    forall s: Bytes, i: int :: At(t, s, i) ==> MatchAll(u, subs, s, i, i + |t|)
  }

  ghost predicate TimesMatched(u: CaseTable, sub: Regexp, n: nat, t: Bytes) {
    forall s: Bytes, i: int :: At(t, s, i) ==> MatchTimes(u, sub, n, s, i, i + |t|)
  }

  ghost predicate RunesMatched(u: CaseTable, runes: seq<int>, fold: bool, t: Bytes) {
    forall s: Bytes, i: int :: At(t, s, i) ==> MatchRunes(u, runes, fold, s, i, i + |t|)
  }

  /** The bytes a rune of a literal is matched by: its encoding, or one invalid byte for U+FFFD. */
  function RuneBytes(r: int): Bytes {
    if r == RUNE_ERROR then [0xFF] else Encode(r)
  }

  lemma RuneBytesLen(r: int)
    requires IsScalar(r)
    ensures |RuneBytes(r)| == if r == RUNE_ERROR then 1 else RuneLen(r)
  {
    EncodedDecodes(r, []);
  }

  lemma {:induction false} ShortestRunes(u: CaseTable, runes: seq<int>, fold: bool) returns (t: Bytes)
    requires forall k :: 0 <= k < |runes| ==> IsScalar(runes[k])
    ensures |t| == RunesLen(runes) && RunesMatched(u, runes, fold, t)
  {
    if runes == [] {
      t := [];
    } else {
      var rest := ShortestRunes(u, runes[1..], fold);
      t := RuneBytes(runes[0]) + rest;
      RuneBytesLen(runes[0]);
      hide MatchRunes, RuneBytes, RuneLen;
      forall s: Bytes, i: int | At(t, s, i) ensures MatchRunes(u, runes, fold, s, i, i + |t|) {
        FirstRuneStands(u, runes, fold, rest, s, i);
      }
    }
  }

  lemma FirstRuneStands(u: CaseTable, runes: seq<int>, fold: bool, rest: Bytes, s: Bytes, i: int)
    requires runes != [] && IsScalar(runes[0]) && RunesMatched(u, runes[1..], fold, rest)
    requires At(RuneBytes(runes[0]) + rest, s, i)
    ensures MatchRunes(u, runes, fold, s, i, i + |RuneBytes(runes[0]) + rest|)
  {
    AtHalves(RuneBytes(runes[0]), rest, s, i);
    StandingRuneDecodes(runes[0], s, i);
  }

  lemma StandingRuneDecodes(r: int, s: Bytes, i: int)
    requires IsScalar(r) && At(RuneBytes(r), s, i)
    ensures Decode(s[i..]) == (r, |RuneBytes(r)|)
  {
    var tail := s[i + |RuneBytes(r)|..];
    assert s[i..] == RuneBytes(r) + tail;
    if r == RUNE_ERROR {
      InvalidByteDecodes(tail);
    } else {
      EncodedDecodes(r, tail);
    }
  }

  lemma InvalidByteDecodes(tail: Bytes)
    ensures Decode([0xFF] + tail) == (RUNE_ERROR, 1)
  {
  }

  lemma OneByte(u: CaseTable, re: Regexp, b: byte)
    requires b < 128 && b != '\n' as int
    requires re.op.AnyChar? || re.op.AnyCharNotNL?
    ensures AlwaysMatched(u, re, [b])
  {
    forall s: Bytes, i: int | At([b], s, i) ensures Match(u, re, s, i, i + 1) {
      assert s[i..i + 1][0] == b;
      assert Decode(s[i..]) == (b as int, 1);
    }
  }

  lemma OneOfClass(u: CaseTable, re: Regexp, b: byte)
    requires re.op.CharClass? && if b < 128 then InClass(re.op.ranges, b) else b == 0xFF && InClass(re.op.ranges, RUNE_ERROR)
    ensures AlwaysMatched(u, re, [b])
  {
    forall s: Bytes, i: int | At([b], s, i) ensures Match(u, re, s, i, i + 1) {
      assert s[i..i + 1][0] == b;
      assert Decode(s[i..]) == (if b < 128 then b as int else RUNE_ERROR, 1);
    }
  }

  /** Of a class, the minimum length 1 is attained if and only if one byte is enough for it. */
  lemma ClassLengthIsExact(u: CaseTable, re: Regexp)
    requires re.op.CharClass?
    ensures HasShortMember(re.op.ranges) <==> exists s: Bytes :: |s| == MinLen(re) && Match(u, re, s, 0, |s|)
  {
    if HasShortMember(re.op.ranges) {
      MinLenIsExact(u, re);
    }
    if s: Bytes :| |s| == MinLen(re) && Match(u, re, s, 0, |s|) {
      assert s[0..] == s;
      assert Decode(s).0 == RUNE_ERROR || Decode(s).0 == s[0];
    }
  }

  lemma OnePiece(u: CaseTable, sub: Regexp, t: Bytes)
    requires AlwaysMatched(u, sub, t)
    ensures TimesMatched(u, sub, 1, t)
  {
    forall s: Bytes, i: int | At(t, s, i) ensures MatchTimes(u, sub, 1, s, i, i + |t|) {
      assert MatchTimes(u, sub, 0, s, i + |t|, i + |t|);
      assert Match(u, sub, s, i, i + |t|);
    }
  }

  lemma {:induction false} Pieces(u: CaseTable, sub: Regexp, t: Bytes, n: nat) returns (all: Bytes)
    requires AlwaysMatched(u, sub, t)
    ensures |all| == n * |t| && TimesMatched(u, sub, n, all)
  {
    if n == 0 {
      all := [];
    } else {
      var rest := Pieces(u, sub, t, n - 1);
      all := t + rest;
      assert |all| == |t| + (n - 1) * |t| == n * |t|;
      forall s: Bytes, i: int | At(all, s, i) ensures MatchTimes(u, sub, n, s, i, i + |all|) {
        AtHalves(t, rest, s, i);
        assert Match(u, sub, s, i, i + |t|);
        assert MatchTimes(u, sub, n - 1, s, i + |t|, i + |all|);
      }
    }
  }

  /** A text of exactly the minimum length that the regex matches wherever it stands. */
  lemma {:induction false} ShortestMatch(u: CaseTable, re: Regexp) returns (t: Bytes)
    requires CanMatch(re)
    ensures |t| == MinLen(re) && AlwaysMatched(u, re, t)
    decreases re, 0
  {
    match re.op
    case EmptyMatch => t := [];
    case Literal(runes) =>
      t := ShortestRunes(u, runes, re.foldCase);
      assert AlwaysMatched(u, re, t);
    case CharClass(ranges) =>
      var b: byte :| if b < 128 then InClass(ranges, b) else b == 0xFF && InClass(ranges, RUNE_ERROR);
      t := [b];
      OneOfClass(u, re, b);
    case AnyCharNotNL =>
      t := [97];
      OneByte(u, re, 97);
    case AnyChar =>
      t := [97];
      OneByte(u, re, 97);
    case Capture(sub) =>
      t := ShortestMatch(u, sub);
      assert AlwaysMatched(u, re, t);
    case Star(sub) =>
      t := [];
      assert forall s: Bytes, i: int :: At(t, s, i) ==> MatchTimes(u, sub, 0, s, i, i);
    case Plus(sub) =>
      t := ShortestMatch(u, sub);
      OnePiece(u, sub, t);
      assert AlwaysMatched(u, re, t);
    case Quest(sub) => t := [];
    case Repeat(sub, min, _) => t := ShortestRepeat(u, re);
    case Concat(subs) =>
      t := ShortestAll(u, subs);
      assert AlwaysMatched(u, re, t);
    case Alternate(subs) =>
      var k: nat;
      t, k := ShortestBranch(u, subs);
      assert forall s: Bytes, i: int :: At(t, s, i) ==> Match(u, subs[k], s, i, i + |t|);
  }

  lemma {:induction false} ShortestRepeat(u: CaseTable, re: Regexp) returns (t: Bytes)
    requires CanMatch(re) && re.op.Repeat?
    ensures |t| == MinLen(re) && AlwaysMatched(u, re, t)
    decreases re.op
  {
    var sub, min := re.op.sub, re.op.min;
    var one := ShortestMatch(u, sub);
    t := Pieces(u, sub, one, min);
    assert forall s: Bytes, i: int :: At(t, s, i) ==> MatchTimes(u, sub, min, s, i, i + |t|);
  }

  lemma {:induction false} ShortestAll(u: CaseTable, subs: seq<Regexp>) returns (t: Bytes)
    requires forall k :: 0 <= k < |subs| ==> CanMatch(subs[k])
    ensures |t| == SumMinLen(subs) && AllMatched(u, subs, t)
    decreases subs, 1
  {
    if subs == [] {
      t := [];
    } else {
      var first := ShortestMatch(u, subs[0]);
      var rest := ShortestAll(u, subs[1..]);
      t := first + rest;
      forall s: Bytes, i: int | At(t, s, i) ensures MatchAll(u, subs, s, i, i + |t|) {
        AtHalves(first, rest, s, i);
        assert Match(u, subs[0], s, i, i + |first|);
        assert MatchAll(u, subs[1..], s, i + |first|, i + |t|);
      }
    }
  }

  lemma {:induction false} ShortestBranch(u: CaseTable, subs: seq<Regexp>) returns (t: Bytes, k: nat)
    requires subs != [] && forall k :: 0 <= k < |subs| ==> CanMatch(subs[k])
    ensures k < |subs| && |t| == LeastMinLen(subs) && AlwaysMatched(u, subs[k], t)
    decreases subs, 1
  {
    k := |subs| - 1;
    t := ShortestMatch(u, subs[k]);
    if |subs| > 1 {
      var t', k' := ShortestBranch(u, subs[..k]);
      if |t'| <= |t| {
        t, k := t', k';
      }
    }
  }

  /** The minimum length is attained: no larger bound would be right. */
  lemma MinLenIsExact(u: CaseTable, re: Regexp)
    requires CanMatch(re)
    ensures exists s: Bytes :: |s| == MinLen(re) && Match(u, re, s, 0, |s|)
  {
    var t := ShortestMatch(u, re);
    assert At(t, t, 0);
    assert Match(u, re, t, 0, |t|);
  }
}
