/** Unsigned LEB128 numbers (section 5.2.2 of the WebAssembly Core Specification 1.0) as wasmPatch.ts
    reads and writes them, with JavaScript's 32-bit shifts. */
module Uleb {
  import opened Bytes

  type u32 = x: int | 0 <= x < 0x1_0000_0000

  // ---------------------------------------------------------------- the format

  /** One number: bytes with the high bit set, then one without. */
  predicate IsNumber(bs: Bytes) {
    bs != [] && bs[|bs| - 1] < 128 && forall k :: 0 <= k < |bs| - 1 ==> bs[k] >= 128
  }

  /** `b & 0x7f`. */
  function Low7(b: byte): (low: nat)
    ensures low < 128
  {
    if b < 128 then b else b - 128
  }

  /** The number denoted, seven bits a byte, low bits first. */
  function Value(bs: Bytes): nat {
    if bs == [] then 0 else Low7(bs[0]) + 128 * Value(bs[1..])
  }

  /** A 32-bit number in at most five bytes; it may be padded with 0x80 bytes. */
  predicate IsU32(bs: Bytes) {
    IsNumber(bs) && |bs| <= 5 && Value(bs) < 0x1_0000_0000
  }

  // ---------------------------------------------------------------- JavaScript's operators

  /** `x << n` on 32 bits: each step doubles and drops the top bit. */
  function Shl(x: u32, n: nat): u32 {
    if n == 0 then x
    else
      var y := Shl(x, n - 1);
      if y < 0x8000_0000 then 2 * y else 2 * (y - 0x8000_0000)
  }

  /** `(b & 0x7f) << shift`: the count is taken modulo 32. */
  function Lane(b: byte, shift: nat): u32
    requires shift < 64
  {
    Shl(Low7(b), if shift < 32 then shift else shift - 32)
  }

  /** Bitwise or. */
  function Or(a: nat, b: nat): nat {
    if a == 0 then b
    else if b == 0 then a
    else 2 * Or(a / 2, b / 2) + (if a % 2 == 1 || b % 2 == 1 then 1 else 0)
  }

  /** `x` times 2^n. */
  function Scale(x: nat, n: nat): nat {
    if n == 0 then x else 2 * Scale(x, n - 1)
  }

  lemma {:induction false} ScaleAdds(x: nat, y: nat, n: nat)
    ensures Scale(x + y, n) == Scale(x, n) + Scale(y, n)
  {
    if n > 0 {
      ScaleAdds(x, y, n - 1);
    }
  }

  lemma {:induction false} ScaleTwice(x: nat, m: nat, n: nat)
    ensures Scale(Scale(x, m), n) == Scale(x, m + n)
  {
    if n > 0 {
      ScaleTwice(x, m, n - 1);
    }
  }

  lemma {:induction false} ScaleGrows(x: nat, y: nat, n: nat)
    requires x < y
    ensures Scale(x, n) + Scale(1, n) <= Scale(y, n)
  {
    if n > 0 {
      ScaleGrows(x, y, n - 1);
    }
  }

  /** Or of numbers without a common bit is their sum. */
  lemma {:induction false} OrAdds(a: nat, m: nat, n: nat)
    requires a < Scale(1, n)
    ensures Or(a, Scale(m, n)) == a + Scale(m, n)
  {
    if n > 0 && a > 0 && Scale(m, n) > 0 {
      OrAdds(a / 2, m, n - 1);
    }
  }

  lemma {:induction false} OrKeepsWidth(a: nat, b: nat, n: nat)
    requires a < Scale(1, n) && b < Scale(1, n)
    ensures Or(a, b) < Scale(1, n)
  {
    if a > 0 && b > 0 {
      OrKeepsWidth(a / 2, b / 2, n - 1);
    }
  }

  lemma {:induction false} ShlScales(x: u32, n: nat)
    requires Scale(x, n) < 0x1_0000_0000
    ensures Shl(x, n) == Scale(x, n)
  {
    if n > 0 {
      ShlScales(x, n - 1);
    }
  }

  lemma Powers()
    ensures Scale(1, 7) == 128 && Scale(1, 14) == 16384 && Scale(1, 21) == 2097152
    ensures Scale(1, 28) == 268435456 && Scale(1, 32) == 0x1_0000_0000
  {
    assert Scale(1, 4) == 16;
    assert Scale(1, 7) == 128;
    assert Scale(1, 10) == 1024;
    assert Scale(1, 14) == 16384;
    assert Scale(1, 18) == 0x4_0000;
    assert Scale(1, 21) == 2097152;
    assert Scale(1, 25) == 0x200_0000;
    assert Scale(1, 28) == 268435456;
  }

  // ---------------------------------------------------------------- reading

  /** A number and the offset behind it, or the reader's exception. */
  datatype Reading = Number(value: u32, after: nat) | TooLarge

  /** A byte past the end is `undefined`, which the bit operators take for 0. */
  function ByteAt(buf: Bytes, i: nat): byte {
    if i < |buf| then buf[i] else 0
  }

  /** The bytes from `i` on of the number at `offset`, the bits before them in `acc`; `shift` is 7 a byte. */
  function ReadFrom(buf: Bytes, offset: nat, i: nat, acc: u32): (r: Reading)
    requires offset <= i < offset + 6
    ensures r.Number? ==> r.after > i
    decreases offset + 6 - i
  {
    var shift := 7 * (i - offset);
    OrFits(acc, Lane(ByteAt(buf, i), shift));
    var acc' := Or(acc, Lane(ByteAt(buf, i), shift));
    if ByteAt(buf, i) < 128 then Number(acc', i + 1)
    else if shift + 7 > 35 then TooLarge
    else ReadFrom(buf, offset, i + 1, acc')
  }

  lemma OrFits(a: u32, b: u32)
    ensures Or(a, b) < 0x1_0000_0000
  {
    Powers();
    OrKeepsWidth(a, b, 32);
  }

  /** The number at `offset` and the offset behind it. */
  function ReadUleb(buf: Bytes, offset: nat): (r: Reading)
    ensures r.Number? ==> r.after > offset
  {
    ReadFrom(buf, offset, offset, 0)
  }

  method ReadULEB(buf: Bytes, offset: nat) returns (r: Reading)
    ensures r == ReadUleb(buf, offset)
  {
    var result: u32, shift, i := 0, 0, offset;
    while true
      invariant offset <= i < offset + 6 && shift == 7 * (i - offset)
      invariant ReadUleb(buf, offset) == ReadFrom(buf, offset, i, result)
      decreases 42 - shift
    {
      var b := ByteAt(buf, i);
      i := i + 1;
      OrFits(result, Lane(b, shift));
      result := Or(result, Lane(b, shift));
      if b < 128 {
        return Number(result, i);
      }
      shift := shift + 7;
      if shift > 35 {
        return TooLarge;
      }
    }
  }

  // ---------------------------------------------------------------- writing

  /** The shortest encoding. */
  function WriteUleb(v: nat): (bs: Bytes)
    ensures bs != []
  {
    if v < 128 then [v] else [v % 128 + 128] + WriteUleb(v / 128)
  }

  /** `value >>> 0`. */
  function ToUint32(value: int): u32 {
    value % 0x1_0000_0000
  }

  method WriteULEB(value: int) returns (out: Bytes)
    ensures out == WriteUleb(ToUint32(value))
  {
    out := [];
    var v: nat := ToUint32(value);
    var more := true;
    while more
      invariant more ==> out + WriteUleb(v) == WriteUleb(ToUint32(value))
      invariant !more ==> v == 0 && out == WriteUleb(ToUint32(value))
      decreases v, more
    {
      var b: byte := v % 128;
      v := v / 128;
      if v != 0 {
        b := b + 128;
      }
      out := out + [b];
      more := v != 0;
    }
  }

  // ---------------------------------------------------------------- the round trip

  /** What is written is a number of the format denoting `v`, and no encoding of `v` is shorter. */
  lemma {:induction false} WrittenDenotes(v: nat)
    ensures IsNumber(WriteUleb(v)) && Value(WriteUleb(v)) == v
  {
    var bs := WriteUleb(v);
    if v < 128 {
      assert bs[1..] == [];
    } else {
      WrittenDenotes(v / 128);
      assert bs[1..] == WriteUleb(v / 128);
    }
  }

  lemma {:induction false} WrittenIsShortest(v: nat, bs: Bytes)
    requires IsNumber(bs) && Value(bs) == v
    ensures |WriteUleb(v)| <= |bs|
    decreases |bs|
  {
    if v >= 128 {
      assert Value(bs[1..]) == v / 128;
      if bs[1..] != [] {
        WrittenIsShortest(v / 128, bs[1..]);
      }
    }
  }

  lemma {:induction false} WrittenLength(v: nat, n: nat)
    requires v < Scale(1, 7 * n) && n > 0
    ensures |WriteUleb(v)| <= n
  {
    if v >= 128 {
      assert n > 1 by { Powers(); }
      ScaleSeven(1, 7 * (n - 1));
      WrittenLength(v / 128, n - 1);
    }
  }

  lemma ScaleSeven(x: nat, n: nat)
    ensures Scale(x, n + 7) == 128 * Scale(x, n)
  {
    assert Scale(x, n + 2) == 4 * Scale(x, n);
    assert Scale(x, n + 4) == 16 * Scale(x, n);
    assert Scale(x, n + 6) == 64 * Scale(x, n);
  }

  /** Every 32-bit number is written as a well-formed one. */
  lemma WrittenIsU32(v: u32)
    ensures IsU32(WriteUleb(v)) && Value(WriteUleb(v)) == v
  {
    WrittenDenotes(v);
    Powers();
    assert Scale(1, 34) == 4 * Scale(1, 32);
    WrittenLength(v, 5);
  }

  lemma RoomGrows(b: byte, n: nat, acc: nat)
    requires acc < Scale(1, n)
    ensures acc + Scale(Low7(b), n) < Scale(1, n + 7)
  {
    ScaleGrows(Low7(b), 128, n);
    ScaleSeven(1, 0);
    ScaleTwice(1, 7, n);
  }

  /** One byte read: its bits go above the ones already there, and none is lost. */
  lemma LaneAdds(b: byte, n: nat, acc: u32)
    requires n <= 28 && acc < Scale(1, n) && acc + Scale(Low7(b), n) < 0x1_0000_0000
    ensures Or(acc, Lane(b, n)) == acc + Scale(Low7(b), n)
  {
    assert Lane(b, n) == Scale(Low7(b), n) by { ShlScales(Low7(b), n); }
    OrAdds(acc, Low7(b), n);
  }

  lemma ReadStep(buf: Bytes, offset: nat, i: nat, acc: u32)
    requires offset <= i < offset + 5 && acc < Scale(1, 7 * (i - offset))
    requires acc + Scale(Low7(ByteAt(buf, i)), 7 * (i - offset)) < 0x1_0000_0000
    ensures var acc' := acc + Scale(Low7(ByteAt(buf, i)), 7 * (i - offset));
            ReadFrom(buf, offset, i, acc) ==
              if ByteAt(buf, i) < 128 then Number(acc', i + 1) else ReadFrom(buf, offset, i + 1, acc')
  {
    LaneAdds(ByteAt(buf, i), 7 * (i - offset), acc);
  }

  lemma ValueScales(bs: Bytes, k: nat)
    requires bs != []
    ensures Scale(Value(bs), 7 * k) == Scale(Low7(bs[0]), 7 * k) + Scale(Value(bs[1..]), 7 * (k + 1))
  {
    var rest := Value(bs[1..]);
    ScaleAdds(Low7(bs[0]), 128 * rest, 7 * k);
    ScaleSeven(rest, 0);
    ScaleTwice(rest, 7, 7 * k);
  }

  lemma NumberStarts(buf: Bytes, i: nat, bs: Bytes)
    requires IsNumber(bs) && At(bs, buf, i)
    ensures ByteAt(buf, i) == bs[0] && (bs[0] < 128 <==> |bs| == 1)
    ensures |bs| > 1 ==> At(bs[1..], buf, i + 1) && IsNumber(bs[1..])
  {
    assert ByteAt(buf, i) == bs[0] by { assert buf[i..i + |bs|][0] == bs[0]; }
    assert At(bs[1..], buf, i + 1) by {
      hide IsNumber;
      assert At(bs[1..], bs, 1);
      Nest(bs[1..], bs, buf, 1, i);
    }
    hide At, ByteAt;
  }

  lemma LastByte(bs: Bytes)
    requires |bs| == 1
    ensures Value(bs) == Low7(bs[0])
  {
    assert bs[1..] == [];
  }

  /** Reading the bytes of a number from `i` on, with the bits before them in `acc`. */
  lemma {:induction false} ReadsFrom(buf: Bytes, offset: nat, i: nat, bs: Bytes, acc: u32)
    requires offset <= i && IsNumber(bs) && i - offset + |bs| <= 5 && At(bs, buf, i)
    requires acc < Scale(1, 7 * (i - offset)) && acc + Scale(Value(bs), 7 * (i - offset)) < 0x1_0000_0000
    ensures ReadFrom(buf, offset, i, acc) == Number(acc + Scale(Value(bs), 7 * (i - offset)), i + |bs|)
    decreases |bs|
  {
    NumberStarts(buf, i, bs);
    hide ReadFrom, Value, Scale, Low7, ByteAt, At, IsNumber;
    ValueScales(bs, i - offset);
    ReadStep(buf, offset, i, acc);
    if |bs| > 1 {
      RoomGrows(bs[0], 7 * (i - offset), acc);
      ReadsFrom(buf, offset, i + 1, bs[1..], acc + Scale(Low7(bs[0]), 7 * (i - offset)));
    } else {
      LastByte(bs);
    }
  }

  /** A well-formed number is read as its value, padded or not, wherever it stands and whatever follows. */
  lemma ReadsValue(buf: Bytes, offset: nat, bs: Bytes)
    requires IsU32(bs) && At(bs, buf, offset)
    ensures ReadUleb(buf, offset) == Number(Value(bs), offset + |bs|)
  {
    ReadsFrom(buf, offset, offset, bs, 0);
  }

  /** readULEB inverts writeULEB, at any offset and with any bytes around. */
  lemma ReadsWritten(before: Bytes, v: u32, after: Bytes)
    ensures ReadUleb(before + WriteUleb(v) + after, |before|) == Number(v, |before| + |WriteUleb(v)|)
  {
    var bs := WriteUleb(v);
    WrittenIsU32(v);
    assert At(bs, before + bs + after, |before|);
    ReadsValue(before + bs + after, |before|, bs);
  }

  /** The reader gives up exactly when six bytes in a row ask for another one. */
  lemma FailsOnLongNumbers(buf: Bytes, offset: nat)
    ensures ReadUleb(buf, offset).TooLarge? <==> forall i: nat :: offset <= i < offset + 6 ==> ByteAt(buf, i) >= 128
  {
    FailsFrom(buf, offset, offset, 0);
  }

  lemma {:induction false} FailsFrom(buf: Bytes, offset: nat, i: nat, acc: u32)
    requires offset <= i < offset + 6
    ensures ReadFrom(buf, offset, i, acc).TooLarge? <==> forall j: nat :: i <= j < offset + 6 ==> ByteAt(buf, j) >= 128
    decreases offset + 6 - i
  {
    var lane := Lane(ByteAt(buf, i), 7 * (i - offset));
    OrFits(acc, lane);
    if ByteAt(buf, i) >= 128 && i < offset + 5 {
      FailsFrom(buf, offset, i + 1, Or(acc, lane));
    }
  }

  /** A sixth byte is not read as bits 35 to 41 but lands on bits 3 to 9: no number of the format is that long. */
  lemma SixthByteLandsLow(buf: Bytes, offset: nat, n: nat)
    requires n < 128 && At([0x80, 0x80, 0x80, 0x80, 0x80, n], buf, offset)
    ensures ReadUleb(buf, offset) == Number(8 * n, offset + 6)
  {
    var bs: Bytes := [0x80, 0x80, 0x80, 0x80, 0x80, n];
    forall k | 0 <= k < 6 ensures ByteAt(buf, offset + k) == bs[k] {
      assert buf[offset..offset + 6][k] == bs[k];
    }
    assert ReadFrom(buf, offset, offset + 5, 0) == Number(8 * n, offset + 6) by {
      EightTimes(n);
    }
    NothingAdded(buf, offset, offset + 4);
    NothingAdded(buf, offset, offset + 3);
    NothingAdded(buf, offset, offset + 2);
    NothingAdded(buf, offset, offset + 1);
    NothingAdded(buf, offset, offset);
  }

  lemma EightTimes(n: nat)
    requires n < 128
    ensures Lane(n, 35) == 8 * n
  {
    assert Scale(n, 1) == 2 * n;
    assert Scale(n, 3) == 8 * n;
    ShlScales(n, 3);
  }

  lemma NothingAdded(buf: Bytes, offset: nat, i: nat)
    requires offset <= i < offset + 5 && ByteAt(buf, i) == 0x80
    ensures ReadFrom(buf, offset, i, 0) == ReadFrom(buf, offset, i + 1, 0)
  {
    assert Lane(0x80, 7 * (i - offset)) == 0 by { ZeroLane(7 * (i - offset)); }
  }

  lemma {:induction false} ZeroLane(n: nat)
    ensures Shl(0, n) == 0
  {
    if n > 0 {
      ZeroLane(n - 1);
    }
  }
}
