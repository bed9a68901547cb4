/** The multi-needle searcher: a Wu-Manber shift table of 8-bit entries and buckets by end byte. */
module WuManber {
  import opened Bytes

  /** `c` is the byte `b`, or in folding mode its capital. */
  predicate Touches(b: byte, ci: bool, c: byte) {
    b == c || (ci && 'a' as int <= b <= 'z' as int && c == b - 32)
  }

  /** Byte `c`'s table entry once `k` needles and `j` bytes of the next have been entered. */
  function ShiftAfter(norms: seq<Bytes>, m: nat, ci: bool, k: nat, j: nat, c: byte): byte
    requires k <= |norms| && j <= m && (j > 0 ==> k < |norms|)
    requires forall x :: 0 <= x < |norms| ==> m <= |norms[x]|
    decreases k, j
  {
    if j > 0 then
      var before := ShiftAfter(norms, m, ci, k, j - 1, c);
      var sh := (m - j) % 256;
      if Touches(norms[k][j - 1], ci, c) && sh < before then sh else before
    else if k > 0 then ShiftAfter(norms, m, ci, k - 1, m, c)
    else if m > 255 then 255 else m
  }

  lemma NothingEntered(norms: seq<Bytes>, m: nat, ci: bool)
    requires forall x :: 0 <= x < |norms| ==> m <= |norms[x]|
    ensures forall c: byte :: ShiftAfter(norms, m, ci, 0, 0, c) == if m > 255 then 255 else m
  {
  }

  lemma EnteredNext(norms: seq<Bytes>, m: nat, ci: bool, k: nat, j: nat)
    requires k < |norms| && j < m && forall x :: 0 <= x < |norms| ==> m <= |norms[x]|
    ensures forall c: byte ::
              var before, sh := ShiftAfter(norms, m, ci, k, j, c), (m - 1 - j) % 256;
              ShiftAfter(norms, m, ci, k, j + 1, c) == if Touches(norms[k][j], ci, c) && sh < before then sh else before
  {
  }

  lemma NeedleEntered(norms: seq<Bytes>, m: nat, ci: bool, k: nat)
    requires k < |norms| && forall x :: 0 <= x < |norms| ==> m <= |norms[x]|
    ensures forall c: byte :: ShiftAfter(norms, m, ci, k + 1, 0, c) == ShiftAfter(norms, m, ci, k, m, c)
  {
  }

  /** The finished table never promises to jump past a place where a needle's byte lines up. */
  lemma {:induction false} ShiftIsSafe(norms: seq<Bytes>, m: nat, ci: bool, k: nat, j: nat, c: byte, k': nat, j': nat)
    requires k <= |norms| && j <= m && (j > 0 ==> k < |norms|)
    requires forall x :: 0 <= x < |norms| ==> m <= |norms[x]|
    requires k' < k || (k' == k && j' < j)
    requires k' < |norms| && j' < m && Touches(norms[k'][j'], ci, c)
    ensures ShiftAfter(norms, m, ci, k, j, c) <= (m - 1 - j') % 256
    decreases k, j
  {
    if j > 0 {
      if k' < k || j' < j - 1 {
        ShiftIsSafe(norms, m, ci, k, j - 1, c, k', j');
      }
    } else {
      ShiftIsSafe(norms, m, ci, k - 1, m, c, k', j');
    }
  }

  lemma {:induction false} ShiftAtMost(norms: seq<Bytes>, m: nat, ci: bool, k: nat, j: nat, c: byte)
    requires k <= |norms| && j <= m && (j > 0 ==> k < |norms|)
    requires forall x :: 0 <= x < |norms| ==> m <= |norms[x]|
    ensures ShiftAfter(norms, m, ci, k, j, c) <= m
    decreases k, j
  {
    if j > 0 {
      ShiftAtMost(norms, m, ci, k, j - 1, c);
    } else if k > 0 {
      ShiftAtMost(norms, m, ci, k - 1, m, c);
    }
  }

  /** The needles whose byte at offset m-1 is `c`, in order. */
  function Bucket(norms: seq<Bytes>, m: nat, c: byte): seq<Bytes>
    requires m > 0 && forall x :: 0 <= x < |norms| ==> m <= |norms[x]|
  {
    if norms == [] then []
    else
      var rest := Bucket(norms[..|norms| - 1], m, c);
      var last := norms[|norms| - 1];
      if last[m - 1] == c then rest + [last] else rest
  }

  lemma {:induction false} BucketHolds(norms: seq<Bytes>, m: nat, c: byte, w: Bytes)
    requires m > 0 && forall x :: 0 <= x < |norms| ==> m <= |norms[x]|
    ensures w in Bucket(norms, m, c) <==> w in norms && w[m - 1] == c
  {
    if norms != [] {
      BucketHolds(norms[..|norms| - 1], m, c, w);
      assert norms == norms[..|norms| - 1] + [norms[|norms| - 1]];
    }
  }

  function Normalize(needles: seq<Bytes>, ci: bool): (norms: seq<Bytes>)
    ensures |norms| == |needles|
    ensures forall k :: 0 <= k < |needles| ==> norms[k] == Norm(ci, needles[k]) && |norms[k]| == |needles[k]|
  {
    seq(|needles|, k requires 0 <= k < |needles| => Norm(ci, needles[k]))
  }

  predicate IsShortest(m: nat, needles: seq<Bytes>) {
    && (forall k :: 0 <= k < |needles| ==> m <= |needles[k]|)
    && (needles != [] ==> exists k :: 0 <= k < |needles| && m == |needles[k]|)
    && (needles == [] ==> m == 0)
  }

  /** Compares byte by byte, folding the capitals of `a` only. */
  method EqualFold(a: Bytes, b: Bytes) returns (equal: bool)
    requires |a| == |b|
    ensures equal <==> AsciiLower(a) == b
  {
    for i := 0 to |a|
      invariant forall k :: 0 <= k < i ==> AsciiLowerByte(a[k]) == b[k]
    {
      if AsciiLowerByte(a[i]) != b[i] {
        assert AsciiLower(a)[i] != b[i];
        return false;
      }
    }
    return true;
  }

  lemma LowerWindow(s: Bytes, i: nat, n: nat)
    requires i + n <= |s|
    ensures AsciiLower(s[i..i + n]) == AsciiLower(s)[i..i + n]
  {
  }

  class IndexedMatcher {
    const needles: seq<Bytes>
    const ci: bool
    const minLen: nat
    const shift: array<byte>
    const endBuckets: array<seq<Bytes>>

    ghost predicate Valid()
      reads shift, endBuckets
    {
      && IsShortest(minLen, needles)
      && (needles != [] ==> minLen > 0)
      && shift.Length == 256 && endBuckets.Length == 256
      && var norms := Normalize(needles, ci);
         needles != [] ==>
           && (forall c: byte :: shift[c] == ShiftAfter(norms, minLen, ci, |norms|, 0, c))
           && (forall c: byte :: endBuckets[c] == Bucket(norms, minLen, c))
    }

    /** Some needle stands in the (folded) haystack. */
    ghost predicate Finds(s: Bytes) {
      exists k :: 0 <= k < |needles| && Occurs(Norm(ci, needles[k]), Norm(ci, s))
    }

    constructor (needles: seq<Bytes>, ci: bool)
      requires forall k :: 0 <= k < |needles| ==> needles[k] != []
      requires ci ==> forall k :: 0 <= k < |needles| ==> IsAscii(needles[k])
      ensures Valid() && fresh(shift) && fresh(endBuckets)
      ensures this.needles == needles && this.ci == ci
    {
      var m := ShortestLength(needles);
      var norms := Normalize(needles, ci);
      var ml: byte := if m > 255 then 255 else m;
      var sh := new byte[256](_ => ml);
      if needles != [] {
        FillShift(sh, norms, m, ci, ml);
      }
      var buckets := new seq<Bytes>[256](_ => []);
      if needles != [] {
        FillBuckets(buckets, norms, m);
      }
      this.needles, this.ci, this.minLen, this.shift, this.endBuckets := needles, ci, m, sh, buckets;
    }

    static method ShortestLength(needles: seq<Bytes>) returns (m: nat)
      ensures IsShortest(m, needles)
    {
      if needles == [] {
        return 0;
      }
      m := |needles[0]|;
      ghost var best := 0;
      var x := 1;
      while x < |needles|
        invariant 1 <= x <= |needles| && 0 <= best < x && m == |needles[best]|
        invariant forall k :: 0 <= k < x ==> m <= |needles[k]|
      {
        if |needles[x]| < m {
          m, best := |needles[x]|, x;
        }
        x := x + 1;
      }
    }

    /** Enters every needle's first m bytes; distances wrap to 8 bits. */
    static method FillShift(sh: array<byte>, norms: seq<Bytes>, m: nat, ci: bool, ghost ml: byte)
      requires sh.Length == 256 && m > 0 && norms != []
      requires forall x :: 0 <= x < |norms| ==> m <= |norms[x]|
      requires ml == (if m > 255 then 255 else m) && forall c :: 0 <= c < 256 ==> sh[c] == ml
      modifies sh
      ensures forall c: byte :: sh[c] == ShiftAfter(norms, m, ci, |norms|, 0, c)
    {
      NothingEntered(norms, m, ci);
      hide ShiftAfter;
      var k := 0;
      while k < |norms|
        invariant 0 <= k <= |norms|
        invariant forall c: byte :: sh[c] == ShiftAfter(norms, m, ci, k, 0, c)
      {
        var j := 0;
        while j < m
          invariant 0 <= j <= m
          invariant forall c: byte :: sh[c] == ShiftAfter(norms, m, ci, k, j, c)
        {
          EnteredNext(norms, m, ci, k, j);
          var d := (m - 1 - j) % 256;
          var c := norms[k][j];
          if d < sh[c] {
            sh[c] := d;
          }
          if ci && 'a' as int <= c <= 'z' as int {
            var upper := c - 32;
            if d < sh[upper] {
              sh[upper] := d;
            }
          }
          j := j + 1;
        }
        NeedleEntered(norms, m, ci, k);
        k := k + 1;
      }
    }

    static method FillBuckets(buckets: array<seq<Bytes>>, norms: seq<Bytes>, m: nat)
      requires buckets.Length == 256 && m > 0
      requires forall x :: 0 <= x < |norms| ==> m <= |norms[x]|
      requires forall c :: 0 <= c < 256 ==> buckets[c] == []
      modifies buckets
      ensures forall c: byte :: buckets[c] == Bucket(norms, m, c)
    {
      var k := 0;
      while k < |norms|
        invariant 0 <= k <= |norms|
        invariant forall c: byte :: buckets[c] == Bucket(norms[..k], m, c)
      {
        var c := norms[k][m - 1];
        assert norms[..k + 1][..k] == norms[..k];
        buckets[c] := buckets[c] + [norms[k]];
        k := k + 1;
      }
      assert norms[..k] == norms;
    }

    method Match(s: Bytes) returns (found: bool)
      requires Valid()
      ensures found <==> Finds(s)
    {
      if ci {
        found := MatchCI(s);
      } else {
        found := MatchCS(s);
      }
    }

    method MatchCS(s: Bytes) returns (found: bool)
      requires Valid() && !ci
      ensures found <==> Finds(s)
    {
      var ml := minLen;
      if ml == 0 || |s| < ml {
        return false;
      }
      var i := ml - 1;
      while i < |s|
        invariant ml - 1 <= i
        invariant NoneEndsBefore(s, i)
        decreases |s| - i
      {
        var sh := shift[s[i]];
        if sh != 0 {
          JumpIsSafe(s, i);
          i := i + sh;
          continue;
        }
        var pos := i - ml + 1;
        var bucket := endBuckets[s[i]];
        var b := 0;
        while b < |bucket|
          invariant 0 <= b <= |bucket|
          invariant forall x :: 0 <= x < b ==> !At(bucket[x], s, pos)
        {
          var needle := bucket[b];
          if pos + |needle| <= |s| && s[pos..pos + |needle|] == needle {
            CandidateFound(s, i, needle);
            return true;
          }
          b := b + 1;
        }
        NoCandidate(s, i);
        i := i + 1;
      }
      return false;
    }

    method MatchCI(s: Bytes) returns (found: bool)
      requires Valid() && ci
      ensures found <==> Finds(s)
    {
      var ml := minLen;
      if ml == 0 || |s| < ml {
        return false;
      }
      var i := ml - 1;
      while i < |s|
        invariant ml - 1 <= i
        invariant NoneEndsBefore(s, i)
        decreases |s| - i
      {
        var sh := shift[s[i]];
        if sh != 0 {
          JumpIsSafe(s, i);
          i := i + sh;
          continue;
        }
        var pos := i - ml + 1;
        var bucket := endBuckets[AsciiLowerByte(s[i])];
        var b := 0;
        while b < |bucket|
          invariant 0 <= b <= |bucket|
          invariant forall x :: 0 <= x < b ==> !At(bucket[x], AsciiLower(s), pos)
        {
          var needle := bucket[b];
          if pos + |needle| <= |s| {
            var equal := EqualFold(s[pos..pos + |needle|], needle);
            LowerWindow(s, pos, |needle|);
            if equal {
              CandidateFound(s, i, needle);
              return true;
            }
          }
          b := b + 1;
        }
        NoCandidate(s, i);
        i := i + 1;
      }
      return false;
    }

    /** Every occurrence of a needle has its m-th byte at `i` or later. */
    ghost predicate NoneEndsBefore(s: Bytes, i: int) {
      forall k, p :: 0 <= k < |needles| && At(Norm(ci, needles[k]), Norm(ci, s), p) ==> p + minLen - 1 >= i
    }

    /** The byte under the window's right edge, as the needles spell it. */
    lemma EdgeByte(s: Bytes, k: nat, p: int, j: nat)
      requires k < |needles| && j < |needles[k]| && At(Norm(ci, needles[k]), Norm(ci, s), p)
      ensures p + j < |s| && Norm(ci, needles[k])[j] == Norm(ci, s)[p + j]
      ensures Touches(Norm(ci, needles[k])[j], ci, s[p + j])
    {
      var w := Norm(ci, needles[k]);
      assert Norm(ci, s)[p..p + |w|][j] == w[j];
    }

    /** A needle ending inside the jump would have its byte under the edge, and the table would know. */
    lemma NotInsideJump(s: Bytes, i: int, k: nat, p: int)
      requires Valid() && needles != [] && minLen - 1 <= i < |s| && k < |needles|
      requires At(Norm(ci, needles[k]), Norm(ci, s), p) && i <= p + minLen - 1 < i + minLen
      ensures shift[s[i]] <= p + minLen - 1 - i
    {
      var norms := Normalize(needles, ci);
      var gap := p + minLen - 1 - i;
      var j := minLen - 1 - gap;
      EdgeByte(s, k, p, j);
      ShiftIsSafe(norms, minLen, ci, |norms|, 0, s[i], k, j);
      assert gap % 256 <= gap;
    }

    lemma JumpIsShort(c: byte)
      requires Valid() && needles != []
      ensures shift[c] <= minLen
    {
      var norms := Normalize(needles, ci);
      ShiftAtMost(norms, minLen, ci, |norms|, 0, c);
    }

    lemma JumpIsSafe(s: Bytes, i: int)
      requires Valid() && minLen > 0 && minLen - 1 <= i < |s| && shift[s[i]] != 0 && NoneEndsBefore(s, i)
      ensures NoneEndsBefore(s, i + shift[s[i]])
    {
      JumpIsShort(s[i]);
      forall k, p | 0 <= k < |needles| && At(Norm(ci, needles[k]), Norm(ci, s), p)
        ensures p + minLen - 1 >= i + shift[s[i]]
      {
        if p + minLen - 1 < i + minLen {
          NotInsideJump(s, i, k, p);
        }
      }
    }

    lemma CandidateFound(s: Bytes, i: int, needle: Bytes)
      requires Valid() && minLen > 0 && minLen - 1 <= i < |s|
      requires needle in endBuckets[Norm(ci, s)[i]] && At(needle, Norm(ci, s), i - minLen + 1)
      ensures Finds(s)
    {
      var norms := Normalize(needles, ci);
      BucketHolds(norms, minLen, Norm(ci, s)[i], needle);
      var k :| 0 <= k < |norms| && norms[k] == needle;
      assert OccursIn(needle, Norm(ci, s), 0, |Norm(ci, s)|);
    }

    lemma NoCandidate(s: Bytes, i: int)
      requires Valid() && minLen > 0 && minLen - 1 <= i < |s| && NoneEndsBefore(s, i)
      requires var bucket := endBuckets[Norm(ci, s)[i]];
               forall x :: 0 <= x < |bucket| ==> !At(bucket[x], Norm(ci, s), i - minLen + 1)
      ensures NoneEndsBefore(s, i + 1)
    {
      var norms, edge := Normalize(needles, ci), Norm(ci, s)[i];
      forall k | 0 <= k < |needles| ensures norms[k][minLen - 1] == edge ==> norms[k] in endBuckets[edge] {
        assert norms[k] in norms;
        BucketHolds(norms, minLen, edge, norms[k]);
      }
      hide Bucket, ShiftAfter, IsShortest;
      forall k, p | 0 <= k < |needles| && At(Norm(ci, needles[k]), Norm(ci, s), p)
        ensures p + minLen - 1 >= i + 1
      {
        if p + minLen - 1 == i {
          EdgeByte(s, k, p, minLen - 1);
          assert false;
        }
      }
    }
  }
}
