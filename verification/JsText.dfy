/** JavaScript strings as UTF-8 bytes, and clipping those bytes between characters. */
module JsText {
  import opened Bytes
  import opened Utf8

  type CodeUnit = x: int | 0 <= x < 0x1_0000
  type JsString = seq<CodeUnit>

  predicate IsHigh(c: CodeUnit) {
    0xD800 <= c <= 0xDBFF
  }

  predicate IsLow(c: CodeUnit) {
    0xDC00 <= c <= 0xDFFF
  }

  predicate StartsPair(s: JsString) {
    |s| >= 2 && IsHigh(s[0]) && IsLow(s[1])
  }

  /** The code points of a string; a surrogate without its partner stands for itself. */
  function CodePoints(s: JsString): seq<int> {
    if s == [] then []
    else if StartsPair(s) then [0x1_0000 + (s[0] - 0xD800) * 0x400 + (s[1] - 0xDC00)] + CodePoints(s[2..])
    else [s[0]] + CodePoints(s[1..])
  }

  /** The code units of a code point (section 2.1 of RFC 2781). */
  function Utf16(r: int): JsString
    requires 0 <= r <= 0x10FFFF
  {
    if r < 0x1_0000 then [r] else [0xD800 + (r - 0x1_0000) / 0x400, 0xDC00 + (r - 0x1_0000) % 0x400]
  }

  predicate AreCodePoints(runes: seq<int>) {
    forall k :: 0 <= k < |runes| ==> 0 <= runes[k] <= 0x10FFFF
  }

  function Spelled(runes: seq<int>): JsString
    requires AreCodePoints(runes)
  {
    if runes == [] then [] else Utf16(runes[0]) + Spelled(runes[1..])
  }

  /** The code points spell the string, and no two neighbours are the halves of a pair. */
  lemma {:induction false} CodePointsSpell(s: JsString)
    ensures var runes := CodePoints(s);
            && AreCodePoints(runes) && Spelled(runes) == s
            && (forall k :: 0 < k < |runes| ==> !(0xD800 <= runes[k - 1] <= 0xDBFF && 0xDC00 <= runes[k] <= 0xDFFF))
    decreases |s|
  {
    if s != [] {
      var n := if StartsPair(s) then 2 else 1;
      var rest := CodePoints(s[n..]);
      CodePointsSpell(s[n..]);
      assert CodePoints(s)[1..] == rest;
      FirstCodePoint(s[n..]);
      FirstCodePoint(s);
      FirstUnits(s);
      assert s == s[..n] + s[n..];
      hide CodePoints;
    }
  }

  lemma FirstCodePoint(s: JsString)
    ensures s != [] ==> CodePoints(s) != [] && (CodePoints(s)[0] < 0x1_0000 ==> CodePoints(s)[0] == s[0])
    ensures s == [] ==> CodePoints(s) == []
  {
  }

  lemma FirstUnits(s: JsString)
    requires s != []
    ensures 0 <= CodePoints(s)[0] <= 0x10FFFF && Utf16(CodePoints(s)[0]) == if StartsPair(s) then s[..2] else s[..1]
  {
  }

  /** UTF-8 text; what is not a scalar value is written as U+FFFD. */
  function EncodeAll(runes: seq<int>): Bytes {
    if runes == [] then [] else Encode(runes[0]) + EncodeAll(runes[1..])
  }

  /** What TextEncoder and Buffer.write make of a string. */
  function ToUtf8(s: JsString): Bytes {
    EncodeAll(CodePoints(s))
  }

  /** A Go program ranging over the bytes. */
  function DecodeAll(b: Bytes): seq<int> {
    if b == [] then [] else [Decode(b).0] + DecodeAll(b[Decode(b).1..])
  }

  /** The text a Go program sees is the string's code points, U+FFFD for each half of a pair without the other. */
  lemma {:induction false} DecodesText(runes: seq<int>)
    ensures DecodeAll(EncodeAll(runes)) ==
              seq(|runes|, k requires 0 <= k < |runes| => if IsScalar(runes[k]) then runes[k] else 0xFFFD)
  {
    if runes != [] {
      var r := if IsScalar(runes[0]) then runes[0] else 0xFFFD;
      var b := EncodeAll(runes);
      assert Encode(runes[0]) == Encode(r) by { ErrorIsEncoded(); }
      EncodedDecodes(r, EncodeAll(runes[1..]));
      assert b == Encode(r) + EncodeAll(runes[1..]) && b[|Encode(r)|..] == EncodeAll(runes[1..]);
      DecodesText(runes[1..]);
    }
  }

  lemma ErrorIsEncoded()
    ensures Encode(0xFFFD) == [0xEF, 0xBF, 0xBD]
  {
  }

  /** Four bytes a code unit are always enough. */
  lemma {:induction false} Utf8AtMost(s: JsString)
    ensures |ToUtf8(s)| <= 4 * |s|
    decreases |s|
  {
    if s != [] {
      var n := if StartsPair(s) then 2 else 1;
      Utf8AtMost(s[n..]);
      assert CodePoints(s)[1..] == CodePoints(s[n..]);
    }
  }

  // ---------------------------------------------------------------- characters and their bytes

  lemma LeadIsNoCont(r: int)
    ensures !IsCont(Encode(r)[0]) && forall k :: 1 <= k < |Encode(r)| ==> IsCont(Encode(r)[k])
  {
  }

  lemma {:induction false} EncodeAllJoins(a: seq<int>, b: seq<int>)
    ensures EncodeAll(a + b) == EncodeAll(a) + EncodeAll(b)
  {
    if a == [] {
      assert a + b == b;
    } else {
      assert (a + b)[1..] == a[1..] + b;
      EncodeAllJoins(a[1..], b);
    }
  }

  /** How many leading characters fit in `max` bytes. */
  function Fitting(runes: seq<int>, max: nat): (n: nat)
    ensures n <= |runes|
  {
    if runes == [] || |Encode(runes[0])| > max then 0 else 1 + Fitting(runes[1..], max - |Encode(runes[0])|)
  }

  /** They do fit, and one more does not. */
  lemma {:induction false} FittingIsMost(runes: seq<int>, max: nat)
    ensures var n := Fitting(runes, max);
            && |EncodeAll(runes[..n])| <= max
            && (n < |runes| ==> |EncodeAll(runes[..n + 1])| > max)
  {
    var n := Fitting(runes, max);
    if n == 0 {
      assert runes[..0] == [];
      if runes != [] {
        assert runes[..1] == [runes[0]] && [runes[0]][1..] == [];
      }
    } else {
      FittingIsMost(runes[1..], max - |Encode(runes[0])|);
      assert runes[..n][1..] == runes[1..][..n - 1];
      if n < |runes| {
        assert runes[..n + 1][1..] == runes[1..][..n];
      }
    }
  }

  // ---------------------------------------------------------------- clipping

  /** From `end` back over continuation bytes. */
  function StepBack(b: Bytes, end: nat): (e: nat)
    requires end < |b|
    ensures e <= end
    decreases end
  {
    if end > 0 && IsCont(b[end]) then StepBack(b, end - 1) else end
  }

  method TruncateUtf8(b: Bytes, maxBytes: nat) returns (r: Bytes)
    ensures r == if |b| <= maxBytes then b else b[..StepBack(b, maxBytes)]
  {
    if |b| <= maxBytes {
      return b;
    }
    var end: nat := maxBytes;
    while end > 0 && IsCont(b[end])
      invariant 0 <= end <= maxBytes && StepBack(b, end) == StepBack(b, maxBytes)
    {
      end := end - 1;
    }
    return b[..end];
  }

  /** The text clipped to `max` bytes. */
  function Clipped(b: Bytes, max: nat): Bytes {
    if |b| <= max then b else b[..StepBack(b, max)]
  }

  lemma {:induction false} StepBackShifts(a: Bytes, b: Bytes, end: nat)
    requires end < |b| && b != [] && !IsCont(b[0])
    ensures StepBack(a + b, |a| + end) == |a| + StepBack(b, end)
    decreases end
  {
    if end > 0 && IsCont(b[end]) {
      StepBackShifts(a, b, end - 1);
    } else if end == 0 && a != [] {
      assert (a + b)[|a|] == b[0];
    }
  }

  lemma StepBackToStart(r: int, b: Bytes, end: nat)
    requires end < |Encode(r)|
    ensures StepBack(Encode(r) + b, end) == 0
    decreases end
  {
    LeadIsNoCont(r);
    if end > 0 {
      StepBackToStart(r, b, end - 1);
    }
  }

  /** Clipping keeps whole characters, as many as fit. */
  lemma {:induction false} ClipsBetweenCharacters(runes: seq<int>, max: nat)
    ensures Clipped(EncodeAll(runes), max) == EncodeAll(runes[..Fitting(runes, max)])
    decreases |runes|
  {
    var n := Fitting(runes, max);
    if n == 0 {
      assert runes[..n] == [];
      if runes != [] {
        StepBackToStart(runes[0], EncodeAll(runes[1..]), max);
      }
    } else {
      var room := max - |Encode(runes[0])|;
      ClipsBetweenCharacters(runes[1..], room);
      ClipsBehindFirst(runes, max);
      assert runes[..n][1..] == runes[1..][..n - 1];
    }
  }

  lemma ClipsBehindFirst(runes: seq<int>, max: nat)
    requires runes != [] && |Encode(runes[0])| <= max
    ensures var e := Encode(runes[0]);
            Clipped(EncodeAll(runes), max) == e + Clipped(EncodeAll(runes[1..]), max - |e|)
  {
    hide Encode, IsCont, Clipped;
    assert EncodeAll(runes) == Encode(runes[0]) + EncodeAll(runes[1..]);
    hide EncodeAll;
    if |EncodeAll(runes)| > max {
      StartsWithLead(runes[1..]);
    }
    ClipsBehind(Encode(runes[0]), EncodeAll(runes[1..]), max);
  }

  lemma ClipsBehind(a: Bytes, b: Bytes, max: nat)
    requires |a| <= max && (|a + b| > max ==> b != [] && !IsCont(b[0]))
    ensures Clipped(a + b, max) == a + Clipped(b, max - |a|)
  {
    if |a + b| > max {
      StepBackShifts(a, b, max - |a|);
    }
  }

  lemma StartsWithLead(runes: seq<int>)
    requires EncodeAll(runes) != []
    ensures !IsCont(EncodeAll(runes)[0])
  {
    LeadIsNoCont(runes[0]);
  }

  /** At most three bytes of room are given up. */
  lemma ClipsLittle(runes: seq<int>, max: nat)
    requires |EncodeAll(runes)| > max
    ensures max - 3 <= |Clipped(EncodeAll(runes), max)| <= max
  {
    ClipsBetweenCharacters(runes, max);
    FittingFills(runes, max);
  }

  lemma FittingFills(runes: seq<int>, max: nat)
    requires |EncodeAll(runes)| > max
    ensures max - 3 <= |EncodeAll(runes[..Fitting(runes, max)])| <= max
  {
    NotAllFit(runes, max);
    FittingIsMost(runes, max);
    OneMore(runes, Fitting(runes, max));
  }

  lemma OneMore(runes: seq<int>, n: nat)
    requires n < |runes|
    ensures |EncodeAll(runes[..n + 1])| == |EncodeAll(runes[..n])| + |Encode(runes[n])|
  {
    assert runes[..n + 1] == runes[..n] + [runes[n]] && [runes[n]][1..] == [];
    EncodeAllJoins(runes[..n], [runes[n]]);
  }

  lemma NotAllFit(runes: seq<int>, max: nat)
    requires |EncodeAll(runes)| > max
    ensures Fitting(runes, max) < |runes|
  {
    FittingIsMost(runes, max);
    assert runes[..|runes|] == runes;
  }
}
