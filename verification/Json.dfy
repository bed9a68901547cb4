/** The JSON writer: strings escaped byte by byte, integers through a digit buffer (RFC 8259, sections 6 and 7). */
module Json {
  import opened Bytes
  import opened Wrappers

  const QUOTE: byte := 34
  const BACKSLASH: byte := 92
  const MINUS: byte := 45
  const ZERO: byte := 48

  // ---------------------------------------------------------------- strings

  function HexDigit(n: byte): (d: byte)
    requires n < 16
  {
    if n < 10 then ZERO + n else 97 + n - 10
  }

  function Escape(r: byte): Bytes {
    if r == QUOTE || r == BACKSLASH then [BACKSLASH, r]
    else if r == 10 then [BACKSLASH, 110]
    else if r == 13 then [BACKSLASH, 114]
    else if r == 9 then [BACKSLASH, 116]
    else if r < 0x20 then [BACKSLASH, 117, ZERO, ZERO, HexDigit(r / 16), HexDigit(r % 16)]
    else [r]
  }

  function EscapeAll(val: Bytes): Bytes {
    if val == [] then [] else Escape(val[0]) + EscapeAll(val[1..])
  }

  function KeyValue(key: Bytes, val: Bytes): Bytes {
    [QUOTE] + key + [QUOTE, 58, QUOTE] + EscapeAll(val) + [QUOTE]
  }

  lemma {:induction false} EscapeAppends(val: Bytes, r: byte)
    ensures EscapeAll(val + [r]) == EscapeAll(val) + Escape(r)
  {
    if val == [] {
      assert val + [r] == [r] && [r][1..] == [];
    } else {
      assert (val + [r])[1..] == val[1..] + [r];
      EscapeAppends(val[1..], r);
    }
  }

  method AppendEscaped(b: Bytes, r: byte) returns (out: Bytes)
    ensures out == b + Escape(r)
  {
    if r == QUOTE || r == BACKSLASH {
      return b + [BACKSLASH, r];
    } else if r == 10 {
      return b + [BACKSLASH, 110];
    } else if r == 13 {
      return b + [BACKSLASH, 114];
    } else if r == 9 {
      return b + [BACKSLASH, 116];
    } else if r < 0x20 {
      return b + [BACKSLASH, 117, ZERO, ZERO, HexDigit(r / 16), HexDigit(r % 16)];
    } else {
      return b + [r];
    }
  }

  method WriteKVS(b: Bytes, key: Bytes, val: Bytes) returns (out: Bytes)
    ensures out == b + KeyValue(key, val)
  {
    hide Escape;
    out := b + [QUOTE] + key + [QUOTE, 58, QUOTE];
    ghost var head := out;
    var k := 0;
    while k < |val|
      invariant 0 <= k <= |val| && out == head + EscapeAll(val[..k])
    {
      assert val[..k + 1] == val[..k] + [val[k]];
      EscapeAppends(val[..k], val[k]);
      out := AppendEscaped(out, val[k]);
      k := k + 1;
    }
    assert val[..k] == val;
    out := out + [QUOTE];
    KeyValueLaidOut(b, key, val);
  }

  lemma KeyValueLaidOut(b: Bytes, key: Bytes, val: Bytes)
    ensures b + [QUOTE] + key + [QUOTE, 58, QUOTE] + EscapeAll(val) + [QUOTE] == b + KeyValue(key, val)
  {
  }

  function HexValue(d: byte): int {
    if 48 <= d <= 57 then d - 48 else if 97 <= d <= 102 then d - 87 else if 65 <= d <= 70 then d - 55 else -1
  }

  // The readers are written in plain byte values: 34 is the quote, 92 the backslash, 58 the colon, 48 to 57 the digits,
  // 45 the minus.

  /** One character of a JSON string, and how many bytes it took: control bytes must be escaped, and of the
      `\u` escapes only those below U+0080 are a single byte. */
  datatype Unit = Unit(value: byte, size: nat) | NoUnit

  function ReadUnit(s: Bytes): (u: Unit)
    ensures u.Unit? ==> 1 <= u.size <= |s|
  {
    if s == [] || s[0] < 0x20 || s[0] == 34 then NoUnit
    else if s[0] != 92 then Unit(s[0], 1)
    else if |s| < 2 then NoUnit
    else if s[1] == 34 || s[1] == 92 || s[1] == 47 then Unit(s[1], 2)
    else if s[1] == 98 then Unit(8, 2)
    else if s[1] == 102 then Unit(12, 2)
    else if s[1] == 110 then Unit(10, 2)
    else if s[1] == 114 then Unit(13, 2)
    else if s[1] == 116 then Unit(9, 2)
    else if s[1] == 117 && |s| >= 6 && s[2] == 48 && s[3] == 48 && 0 <= HexValue(s[4]) < 8 && HexValue(s[5]) >= 0
    then Unit(16 * HexValue(s[4]) + HexValue(s[5]), 6)
    else NoUnit
  }

  /** A string's content up to its closing quote, and what follows the quote. */
  datatype Content = Content(value: Bytes, rest: Bytes) | NoContent

  function ReadContent(s: Bytes): Content
    decreases |s|
  {
    if s != [] && s[0] == 34 then Content([], s[1..])
    else
      match ReadUnit(s)
      case NoUnit => NoContent
      case Unit(v, n) =>
        match ReadContent(s[n..])
        case NoContent => NoContent
        case Content(more, rest) => Content([v] + more, rest)
  }

  lemma ReadsEscaped(r: byte, tail: Bytes)
    ensures ReadUnit(Escape(r) + tail) == Unit(r, |Escape(r)|) && Escape(r)[0] != QUOTE
  {
    var e := Escape(r);
    assert forall k :: 0 <= k < |e| ==> (e + tail)[k] == e[k];
    assert r == 16 * (r / 16) + r % 16;
  }

  /** Reading a written value gives the value back: no raw control byte or quote is left in it. */
  lemma {:induction false} ReadsWritten(val: Bytes, tail: Bytes)
    ensures ReadContent(EscapeAll(val) + [34] + tail) == Content(val, tail)
  {
    var s := EscapeAll(val) + [QUOTE] + tail;
    if val == [] {
      assert s == [QUOTE] + tail && s[1..] == tail;
    } else {
      var e, rest := Escape(val[0]), EscapeAll(val[1..]) + [QUOTE] + tail;
      assert s == e + rest && s[0] == e[0] && s[|e|..] == rest;
      ReadsEscaped(val[0], rest);
      ReadsWritten(val[1..], tail);
      assert [val[0]] + val[1..] == val;
    }
  }

  /** A member `"key":"value"` whose key holds no quote, no backslash and no control byte, and what follows it. */
  datatype Member = Member(key: Bytes, value: Bytes, rest: Bytes) | NoMember

  function ReadMember(s: Bytes): Member {
    if s == [] || s[0] != 34 then NoMember
    else
      match ReadContent(s[1..])
      case NoContent => NoMember
      case Content(key, rest) =>
        if |rest| < 2 || rest[0] != 58 || rest[1] != 34 then NoMember
        else
          match ReadContent(rest[2..])
          case NoContent => NoMember
          case Content(value, after) => Member(key, value, after)
  }

  predicate IsPlain(key: Bytes) {
    forall k :: 0 <= k < |key| ==> key[k] >= 0x20 && key[k] != 34 && key[k] != 92
  }

  lemma {:induction false} PlainReads(key: Bytes, tail: Bytes)
    requires IsPlain(key)
    ensures ReadContent(key + [34] + tail) == Content(key, tail)
  {
    var s := key + [34] + tail;
    if key == [] {
      assert s == [34] + tail && s[1..] == tail;
    } else {
      assert s[1..] == key[1..] + [34] + tail;
      assert ReadUnit(s) == Unit(key[0], 1);
      PlainReads(key[1..], tail);
      assert [key[0]] + key[1..] == key;
    }
  }

  /** A written pair reads back as the member of that key and value. */
  lemma ReadsPair(key: Bytes, val: Bytes, tail: Bytes)
    requires IsPlain(key)
    ensures ReadMember(KeyValue(key, val) + tail) == Member(key, val, tail)
  {
    hide ReadContent, EscapeAll;
    var s := KeyValue(key, val) + tail;
    var after := [58, 34] + (EscapeAll(val) + [34] + tail);
    assert s[0] == 34 && s[1..] == key + [34] + after;
    PlainReads(key, after);
    assert after[2..] == EscapeAll(val) + [34] + tail;
    ReadsWritten(val, tail);
  }

  // ---------------------------------------------------------------- integers

  const MIN_INT64 := -0x8000_0000_0000_0000
  const MAX_INT64 := 0x7FFF_FFFF_FFFF_FFFF

  predicate IsInt64(n: int) {
    MIN_INT64 <= n <= MAX_INT64
  }

  /** `-n` in 64 bits. */
  function Negated(n: int): (m: int)
    requires IsInt64(n)
    ensures IsInt64(m)
  {
    if n == MIN_INT64 then n else -n
  }

  /** The decimal digits; nothing for 0 and below. */
  function Digits(n: int): Bytes
    decreases n
  {
    if n <= 0 then [] else Digits(n / 10) + [ZERO + n % 10]
  }

  function IntText(n: int): Bytes
    requires IsInt64(n)
  {
    if n == 0 then [ZERO] else if n < 0 then [MINUS] + Digits(Negated(n)) else Digits(n)
  }

  function Ten(k: nat): nat {
    if k == 0 then 1 else 10 * Ten(k - 1)
  }

  lemma TwentyDigits()
    ensures MAX_INT64 < Ten(20)
  {
    assert Ten(5) == 100000;
    assert Ten(10) == 10000000000;
    assert Ten(15) == 1000000000000000;
    assert Ten(20) == 100000000000000000000;
  }

  method WriteInt(b: Bytes, value: int) returns (out: Bytes)
    requires IsInt64(value)
    ensures out == b + IntText(value)
  {
    out := b;
    var n := value;
    if n == 0 {
      return out + [ZERO];
    }
    if n < 0 {
      out := out + [MINUS];
      n := Negated(n);
    }
    var buf := new byte[20](_ => 0);
    var i := FillDigits(buf, n);
    out := out + buf[i..];
  }

  /** Fills the buffer backwards; int64 needs at most 19 of its 20 bytes. */
  method FillDigits(buf: array<byte>, value: int) returns (i: nat)
    requires buf.Length == 20 && value <= MAX_INT64
    modifies buf
    ensures i <= 20 && buf[i..] == Digits(value)
  {
    hide Digits, Ten;
    var n := value;
    i := buf.Length;
    TwentyDigits();
    while n > 0
      invariant i <= 20 && n < Ten(i)
      invariant Digits(value) == Digits(n) + buf[i..]
    {
      ghost var done := buf[i..];
      DigitStep(n, i, done);
      i := i - 1;
      buf[i] := ZERO + n % 10;
      assert buf[i + 1..] == done;
      assert buf[i..] == [buf[i]] + buf[i + 1..];
      n := n / 10;
    }
    NoDigits(n);
  }

  lemma DigitStep(n: int, i: nat, done: Bytes)
    requires 0 < n < Ten(i)
    ensures Digits(n) + done == Digits(n / 10) + ([ZERO + n % 10] + done)
    ensures i > 0 && n / 10 < Ten(i - 1)
  {
  }

  lemma NoDigits(n: int)
    requires n <= 0
    ensures Digits(n) == []
  {
  }

  predicate AllDigits(s: Bytes) {
    forall k :: 0 <= k < |s| ==> 48 <= s[k] <= 57
  }

  /** The number spelled by a run of digits. */
  function Number(s: Bytes): int {
    if s == [] then 0 else 10 * Number(s[..|s| - 1]) + (s[|s| - 1] as int - 48)
  }

  /** A JSON integer: an optional minus, then 0 or digits that do not begin with 0. */
  function ReadInt(s: Bytes): Option<int> {
    var negative := s != [] && s[0] == 45;
    var ds := if negative then s[1..] else s;
    if ds == [] || !AllDigits(ds) || (ds[0] == 48 && |ds| > 1) then None
    else Some(if negative then -Number(ds) else Number(ds))
  }

  lemma {:induction false} DigitsSpell(n: int)
    requires n > 0
    ensures var ds := Digits(n); ds != [] && AllDigits(ds) && ds[0] != ZERO && Number(ds) == n
    decreases n
  {
    var ds := Digits(n);
    assert ds[..|ds| - 1] == Digits(n / 10);
    if n >= 10 {
      DigitsSpell(n / 10);
    }
  }

  /** Digits that do not begin with 0 read as their number, with a minus in front as its negation. */
  lemma DigitsRead(ds: Bytes)
    requires ds != [] && AllDigits(ds) && ds[0] != 48
    ensures ReadInt(ds) == Some(Number(ds)) && ReadInt([45] + ds) == Some(-Number(ds))
  {
    hide Number;
    assert ([MINUS] + ds)[1..] == ds;
  }

  lemma ZeroReads()
    ensures ReadInt([48]) == Some(0) && ReadInt([45]) == None
  {
    assert [ZERO][..0] == [] && [MINUS][1..] == [];
    assert Number([ZERO]) == 0;
  }

  /** Every int64 is written as the JSON number it is, except the least one, which is written as a bare minus. */
  lemma WritesEveryIntButTheLeast(n: int)
    requires IsInt64(n)
    ensures ReadInt(IntText(n)) == Some(n) <==> n != MIN_INT64
    ensures n == MIN_INT64 ==> IntText(n) == [45]
  {
    hide Digits, Number, ReadInt, AllDigits;
    ZeroReads();
    if n == MIN_INT64 {
      NoDigits(n);
      assert [MINUS] + [] == [MINUS];
    } else if n != 0 {
      DigitsSpell(if n > 0 then n else -n);
      DigitsRead(Digits(if n > 0 then n else -n));
    }
  }
}
