/** UTF-8 (section 3 of RFC 3629) as Go's unicode/utf8 package encodes and decodes it. */
module Utf8 {
  import opened Bytes

  const RUNE_ERROR := 0xFFFD
  const MAX_RUNE := 0x10FFFF

  predicate IsSurrogate(r: int) {
    0xD800 <= r <= 0xDFFF
  }

  /** A Unicode scalar value. */
  predicate IsScalar(r: int) {
    0 <= r <= MAX_RUNE && !IsSurrogate(r)
  }

  /** The bytes of one rune; what is not a scalar value is written as U+FFFD. */
  function Encode(r: int): (e: Bytes)
    ensures 1 <= |e| <= 4
  {
    if !IsScalar(r) then [0xEF, 0xBF, 0xBD]
    else if r < 0x80 then [r]
    else if r < 0x800 then [0xC0 + r / 64, 0x80 + r % 64]
    else if r < 0x10000 then [0xE0 + r / 4096, 0x80 + r / 64 % 64, 0x80 + r % 64]
    else [0xF0 + r / 262144, 0x80 + r / 4096 % 64, 0x80 + r / 64 % 64, 0x80 + r % 64]
  }

  /** Go's utf8.RuneLen: -1 for what has no encoding. */
  function RuneLen(r: int): int {
    if !IsScalar(r) then -1
    else if r < 0x80 then 1
    else if r < 0x800 then 2
    else if r < 0x10000 then 3
    else 4
  }

  predicate IsCont(b: byte) {
    0x80 <= b <= 0xBF
  }

  /** The second bytes allowed after a lead byte: no overlong form, no surrogate, nothing above U+10FFFF. */
  predicate SecondOk(b0: byte, b1: byte) {
    if b0 == 0xE0 then 0xA0 <= b1 <= 0xBF
    else if b0 == 0xED then 0x80 <= b1 <= 0x9F
    else if b0 == 0xF0 then 0x90 <= b1 <= 0xBF
    else if b0 == 0xF4 then 0x80 <= b1 <= 0x8F
    else IsCont(b1)
  }

  /** Appends the six payload bits of a continuation byte. */
  function Join(high: int, b: byte): int {
    high * 64 + (b as int - 0x80)
  }

  lemma JoinSplits(high: int, b: byte)
    requires IsCont(b)
    ensures Join(high, b) / 64 == high && Join(high, b) % 64 == b as int - 0x80
  {
  }

  /** The first rune of `s` and the bytes it takes; an invalid byte is U+FFFD of size 1. */
  function Decode(s: Bytes): (d: (int, nat))
    requires |s| > 0
    ensures 1 <= d.1 <= |s|
  {
    var b0 := s[0] as int;
    if b0 < 0x80 then (b0, 1)
    else if 0xC2 <= b0 <= 0xDF && |s| >= 2 && IsCont(s[1]) then
      (Join(b0 - 0xC0, s[1]), 2)
    else if 0xE0 <= b0 <= 0xEF && |s| >= 3 && SecondOk(s[0], s[1]) && IsCont(s[2]) then
      (Join(Join(b0 - 0xE0, s[1]), s[2]), 3)
    else if 0xF0 <= b0 <= 0xF4 && |s| >= 4 && SecondOk(s[0], s[1]) && IsCont(s[2]) && IsCont(s[3]) then
      (Join(Join(Join(b0 - 0xF0, s[1]), s[2]), s[3]), 4)
    else (RUNE_ERROR, 1)
  }

  /** What decodes to a rune other than U+FFFD is exactly that rune's encoding. */
  lemma DecodedIsEncoded(s: Bytes)
    requires |s| > 0
    ensures var (r, n) := Decode(s);
            r != RUNE_ERROR ==> IsScalar(r) && n == RuneLen(r) && s[..n] == Encode(r)
  {
    var (r, n) := Decode(s);
    if r != RUNE_ERROR && n >= 2 {
      if n == 2 {
        TwoBytes(s[0], s[1]);
        assert s[..n] == [s[0], s[1]];
      } else if n == 3 {
        ThreeBytes(s[0], s[1], s[2]);
        assert s[..n] == [s[0], s[1], s[2]];
      } else {
        FourBytes(s[0], s[1], s[2], s[3]);
        assert s[..n] == [s[0], s[1], s[2], s[3]];
      }
    }
  }

  lemma TwoBytes(b0: byte, b1: byte)
    requires 0xC2 <= b0 <= 0xDF && IsCont(b1)
    ensures var r := Join(b0 - 0xC0, b1); IsScalar(r) && RuneLen(r) == 2 && Encode(r) == [b0, b1]
  {
    JoinSplits(b0 - 0xC0, b1);
  }

  lemma ThreeBytes(b0: byte, b1: byte, b2: byte)
    requires 0xE0 <= b0 <= 0xEF && SecondOk(b0, b1) && IsCont(b2)
    ensures var r := Join(Join(b0 - 0xE0, b1), b2);
            IsScalar(r) && RuneLen(r) == 3 && Encode(r) == [b0, b1, b2]
  {
    var h := Join(b0 - 0xE0, b1);
    JoinSplits(b0 - 0xE0, b1);
    JoinSplits(h, b2);
    assert Join(h, b2) / 4096 == h / 64;
  }

  lemma FourBytes(b0: byte, b1: byte, b2: byte, b3: byte)
    requires 0xF0 <= b0 <= 0xF4 && SecondOk(b0, b1) && IsCont(b2) && IsCont(b3)
    ensures var r := Join(Join(Join(b0 - 0xF0, b1), b2), b3);
            IsScalar(r) && RuneLen(r) == 4 && Encode(r) == [b0, b1, b2, b3]
  {
    var h := Join(b0 - 0xF0, b1);
    var h' := Join(h, b2);
    JoinSplits(b0 - 0xF0, b1);
    JoinSplits(h, b2);
    JoinSplits(h', b3);
    assert Join(h', b3) / 4096 == h' / 64;
    assert Join(h', b3) / 262144 == h / 64;
  }

  /** Decoding inverts encoding, whatever follows. */
  lemma EncodedDecodes(r: int, tail: Bytes)
    requires IsScalar(r)
    ensures Decode(Encode(r) + tail) == (r, |Encode(r)|)
    ensures |Encode(r)| == RuneLen(r)
  {
    var e := Encode(r);
    var s := e + tail;
    assert forall k :: 0 <= k < |e| ==> s[k] == e[k];
    if 0x800 <= r < 0x10000 {
      assert r / 4096 == r / 64 / 64;
    } else if 0x10000 <= r <= MAX_RUNE {
      assert r / 4096 == r / 64 / 64;
      assert r / 262144 == r / 4096 / 64;
    }
  }

  /** What takes more than one byte is some scalar value's encoding. */
  lemma LongIsEncoded(s: Bytes)
    requires |s| > 0 && Decode(s).1 >= 2
    ensures var (r, n) := Decode(s); IsScalar(r) && s[..n] == Encode(r)
  {
    var (r, n) := Decode(s);
    if n == 2 {
      TwoBytes(s[0], s[1]);
      assert s[..n] == [s[0], s[1]];
    } else if n == 3 {
      ThreeBytes(s[0], s[1], s[2]);
      assert s[..n] == [s[0], s[1], s[2]];
    } else {
      FourBytes(s[0], s[1], s[2], s[3]);
      assert s[..n] == [s[0], s[1], s[2], s[3]];
    }
  }

  /** Where a scalar value's encoding stands it is decoded; where none does, one byte is taken as U+FFFD. */
  lemma DecodesOrSkips(s: Bytes)
    requires |s| > 0
    ensures forall r :: IsScalar(r) && Encode(r) <= s ==> Decode(s) == (r, |Encode(r)|)
    ensures (forall r :: IsScalar(r) ==> !(Encode(r) <= s)) ==> Decode(s) == (0xFFFD, 1)
  {
    forall r | IsScalar(r) && Encode(r) <= s ensures Decode(s) == (r, |Encode(r)|) {
      var e := Encode(r);
      assert s == e + s[|e|..];
      EncodedDecodes(r, s[|e|..]);
    }
    hide Encode;
    if Decode(s).1 >= 2 {
      LongIsEncoded(s);
    } else if s[0] < 0x80 {
      AsciiIsItself(s[0]);
      assert s[..1] == [s[0]];
    }
  }

  lemma AsciiIsItself(b: byte)
    requires b < 0x80
    ensures IsScalar(b) && Encode(b) == [b]
  {
  }
}
