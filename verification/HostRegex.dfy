/** The host's regex service: handles over RegExp objects, each with a small memo of recent answers. */
module HostRegex {
  import opened Wrappers

  // ---------------------------------------------------------------- translating a pattern

  datatype RegExp = RegExp(source: string, flags: string)

  /** What the JavaScript engine accepts, and what a RegExp answers when matching from the start. */
  datatype Engine = Engine(accepts: RegExp -> bool, test: (RegExp, string) -> bool)

  predicate IsLetter(c: char) {
    'a' <= c <= 'z'
  }

  /** The first position from `k` on that holds no lower-case letter. */
  function LettersEnd(raw: string, k: nat): (end: nat)
    requires k <= |raw|
    ensures k <= end <= |raw| && forall i :: k <= i < end ==> IsLetter(raw[i])
    ensures end < |raw| ==> !IsLetter(raw[end])
    decreases |raw| - k
  {
    if k < |raw| && IsLetter(raw[k]) then LettersEnd(raw, k + 1) else k
  }

  /** The letters of a leading `(?letters)`. */
  function FlagBlock(raw: string): (block: Option<string>)
    ensures block.Some? ==> block.value != [] && "(?" + block.value + ")" <= raw && forall c :: c in block.value ==> IsLetter(c)
    ensures block.None? ==> forall w: string :: w != [] && (forall c :: c in w ==> IsLetter(c)) ==> !("(?" + w + ")" <= raw)
  {
    if |raw| < 2 || raw[..2] != "(?" then
      assert forall w: string :: "(?" + w + ")" <= raw ==> ("(?" + w + ")")[..2] == "(?" == raw[..2];
      None
    else
      var end := LettersEnd(raw, 2);
      if end > 2 && end < |raw| && raw[end] == ')' then
        assert raw[..end + 1] == "(?" + raw[2..end] + ")";
        Some(raw[2..end])
      else
        NoBlock(raw, end);
        None
  }

  lemma NoBlock(raw: string, end: nat)
    requires |raw| >= 2 && end == LettersEnd(raw, 2) && !(end > 2 && end < |raw| && raw[end] == ')')
    ensures forall w: string :: w != [] && (forall c :: c in w ==> IsLetter(c)) ==> !("(?" + w + ")" <= raw)
  {
    forall w: string | w != [] && (forall c :: c in w ==> IsLetter(c)) ensures !("(?" + w + ")" <= raw) {
      if "(?" + w + ")" <= raw {
        BlockEnds(raw, w);
      }
    }
  }

  lemma BlockEnds(raw: string, w: string)
    requires (forall c :: c in w ==> IsLetter(c)) && "(?" + w + ")" <= raw
    ensures LettersEnd(raw, 2) == 2 + |w| < |raw| && raw[2 + |w|] == ')'
  {
    var all := "(?" + w + ")";
    assert forall i :: 2 <= i < 2 + |w| ==> raw[i] == all[i] == w[i - 2];
    assert raw[2 + |w|] == all[2 + |w|] == ')';
  }

  predicate IsJsFlag(c: char) {
    c == 's' || c == 'm' || c == 'i' || c == 'u'
  }

  /** The flags with repetitions dropped; None once a flag has no JavaScript form. */
  function AddFlags(letters: string, k: nat, acc: string): Option<string>
    requires k <= |letters|
    decreases |letters| - k
  {
    if k == |letters| then Some(acc)
    else if !IsJsFlag(letters[k]) then None
    else AddFlags(letters, k + 1, if letters[k] in acc then acc else acc + [letters[k]])
  }

  predicate NoRepeats(s: string) {
    forall i, j :: 0 <= i < j < |s| ==> s[i] != s[j]
  }

  lemma {:induction false} AddsFlags(letters: string, k: nat, acc: string)
    requires k <= |letters| && NoRepeats(acc)
    ensures var r := AddFlags(letters, k, acc);
            && (r.Some? <==> forall c :: c in letters[k..] ==> IsJsFlag(c))
            && (r.Some? ==> NoRepeats(r.value) && forall c :: c in r.value <==> c in acc || c in letters[k..])
    decreases |letters| - k
  {
    if k < |letters| {
      assert letters[k..] == [letters[k]] + letters[k + 1..];
      if IsJsFlag(letters[k]) {
        AddsFlags(letters, k + 1, if letters[k] in acc then acc else acc + [letters[k]]);
      }
    }
  }

  function Translate(raw: string): Option<RegExp> {
    match FlagBlock(raw)
    case None => Some(RegExp(raw, ""))
    case Some(block) =>
      match AddFlags(block, 0, "")
      case None => None
      case Some(flags) => Some(RegExp(raw[|block| + 3..], flags))
  }

  /** A pattern is translated unless its leading flag block has a letter other than s, m, i and u; then each flag
      is kept once and the block goes. */
  lemma TranslatesFlags(raw: string)
    ensures var block, r := FlagBlock(raw), Translate(raw);
            && (r.None? <==> block.Some? && exists c :: c in block.value && !IsJsFlag(c))
            && (r.Some? ==> NoRepeats(r.value.flags))
            && (r.Some? && block.None? ==> r.value == RegExp(raw, ""))
            && (r.Some? && block.Some? ==>
                  && "(?" + block.value + ")" + r.value.source == raw
                  && forall c :: c in r.value.flags <==> c in block.value)
  {
    if FlagBlock(raw).Some? {
      var block := FlagBlock(raw).value;
      AddsFlags(block, 0, "");
      assert block[0..] == block;
      var head := "(?" + block + ")";
      assert raw == head + raw[|head|..];
    }
  }

  method TranslatePattern(raw: string) returns (r: Option<RegExp>)
    ensures r == Translate(raw)
  {
    var block := FlagBlock(raw);
    if block.None? {
      return Some(RegExp(raw, ""));
    }
    var jsFlags, k := "", 0;
    while k < |block.value|
      invariant 0 <= k <= |block.value|
      invariant AddFlags(block.value, 0, "") == AddFlags(block.value, k, jsFlags)
    {
      var f := block.value[k];
      if !IsJsFlag(f) {
        return None;
      }
      if f !in jsFlags {
        jsFlags := jsFlags + [f];
      }
      k := k + 1;
    }
    return Some(RegExp(raw[|block.value| + 3..], jsFlags));
  }

  // ---------------------------------------------------------------- the service as a value

  datatype Entry = Entry(input: string, matched: bool)
  type Memo = seq<Entry>

  const MATCH_MEMO_CAPACITY := 8

  datatype Host = Host(patterns: map<nat, RegExp>, memos: map<nat, Memo>, next: nat, rejected: nat)

  datatype Op = Compile(raw: string) | Match(handle: nat, input: string) | Free(handle: nat)

  datatype Answer = Handle(handle: nat) | Matched(matched: bool) | Freed

  const EMPTY := Host(map[], map[], 1, 0)

  /** Where the memo has an answer for `input`; its length if nowhere. */
  function FindEntry(memo: Memo, input: string, k: nat): (i: nat)
    requires k <= |memo|
    ensures k <= i <= |memo| && (i < |memo| ==> memo[i].input == input)
    ensures forall j :: k <= j < i ==> memo[j].input != input
    decreases |memo| - k
  {
    if k == |memo| || memo[k].input == input then k else FindEntry(memo, input, k + 1)
  }

  function Capped(memo: Memo): Memo {
    if |memo| > MATCH_MEMO_CAPACITY then memo[..MATCH_MEMO_CAPACITY] else memo
  }

  /** The memo after a lookup: a hit moves to the front, a miss is put there and the oldest answer may go. */
  function Touched(memo: Memo, input: string, matched: bool): Memo {
    var i := FindEntry(memo, input, 0);
    if i < |memo| then [memo[i]] + memo[..i] + memo[i + 1..]
    else Capped([Entry(input, matched)] + memo)
  }

  function MemoOf(h: Host, handle: nat): Memo {
    if handle in h.memos then h.memos[handle] else []
  }

  function Step(e: Engine, h: Host, op: Op): (Host, Answer) {
    match op
    case Compile(raw) =>
      var re := Translate(raw);
      if re.None? || !e.accepts(re.value) then (h.(rejected := h.rejected + 1), Handle(0))
      else (h.(patterns := h.patterns[h.next := re.value], next := h.next + 1), Handle(h.next))
    case Match(handle, input) =>
      if handle !in h.patterns then (h, Matched(false))
      else
        var memo := MemoOf(h, handle);
        var i := FindEntry(memo, input, 0);
        var matched := if i < |memo| then memo[i].matched else e.test(h.patterns[handle], input);
        (h.(memos := h.memos[handle := Touched(memo, input, matched)]), Matched(matched))
    case Free(handle) => (h.(patterns := h.patterns - {handle}, memos := h.memos - {handle}), Freed)
  }

  function Run(e: Engine, ops: seq<Op>): Host {
    if ops == [] then EMPTY else Step(e, Run(e, ops[..|ops| - 1]), ops[|ops| - 1]).0
  }

  /** The answer to the last operation. */
  function LastAnswer(e: Engine, ops: seq<Op>): Answer
    requires ops != []
  {
    Step(e, Run(e, ops[..|ops| - 1]), ops[|ops| - 1]).1
  }

  lemma MatchStep(e: Engine, h: Host, handle: nat, input: string)
    requires handle in h.patterns
    ensures var memo := MemoOf(h, handle);
            var i := FindEntry(memo, input, 0);
            if i < |memo| then
              var moved := if i == 0 then memo else [memo[i]] + (memo[..i] + memo[i + 1..]);
              Step(e, h, Match(handle, input)) == (h.(memos := h.memos[handle := moved]), Matched(memo[i].matched))
            else
              var matched := e.test(h.patterns[handle], input);
              Step(e, h, Match(handle, input)) ==
                (h.(memos := h.memos[handle := Capped([Entry(input, matched)] + memo)]), Matched(matched))
  {
    var memo := MemoOf(h, handle);
    var i := FindEntry(memo, input, 0);
    assert i == 0 && memo != [] ==> [memo[0]] + memo[..0] + memo[1..] == memo;
    assert i < |memo| ==> [memo[i]] + memo[..i] + memo[i + 1..] == [memo[i]] + (memo[..i] + memo[i + 1..]);
  }

  // ---------------------------------------------------------------- the object

  class HostRegex {
    const engine: Engine
    var patterns: map<nat, RegExp>
    var memos: map<nat, Memo>
    var nextHandle: nat
    var rejectedCount: nat

    ghost function State(): Host
      reads this
    {
      Host(patterns, memos, nextHandle, rejectedCount)
    }

    constructor (engine: Engine)
      ensures this.engine == engine && State() == EMPTY
    {
      this.engine := engine;
      patterns, memos, nextHandle, rejectedCount := map[], map[], 1, 0;
    }

    method CompilePattern(raw: string) returns (handle: nat)
      modifies this
      ensures (State(), Handle(handle)) == Step(engine, old(State()), Compile(raw))
    {
      var re := TranslatePattern(raw);
      if re.None? || !engine.accepts(re.value) {
        rejectedCount := rejectedCount + 1;
        return 0;
      }
      handle := nextHandle;
      nextHandle := nextHandle + 1;
      patterns := patterns[handle := re.value];
    }

    method MatchInput(handle: nat, input: string) returns (matched: bool)
      modifies this
      ensures (State(), Matched(matched)) == Step(engine, old(State()), Match(handle, input))
    {
      if handle !in patterns {
        return false;
      }
      MatchStep(engine, State(), handle, input);
      hide Step;
      var memo := if handle in memos then memos[handle] else [];
      var i := 0;
      while i < |memo|
        invariant 0 <= i <= |memo| && FindEntry(memo, input, 0) == FindEntry(memo, input, i)
      {
        var e := memo[i];
        if e.input == input {
          if i != 0 {
            memo := memo[..i] + memo[i + 1..];
            memo := [e] + memo;
          }
          memos := memos[handle := memo];
          return e.matched;
        }
        i := i + 1;
      }
      matched := engine.test(patterns[handle], input);
      memo := [Entry(input, matched)] + memo;
      if |memo| > MATCH_MEMO_CAPACITY {
        memo := memo[..MATCH_MEMO_CAPACITY];
      }
      memos := memos[handle := memo];
    }

    method FreeHandle(handle: nat)
      modifies this
      ensures State() == Step(engine, old(State()), Free(handle)).0
    {
      patterns := patterns - {handle};
      memos := memos - {handle};
    }
  }

  // ---------------------------------------------------------------- the memo never shows

  /** The inputs handle `k` was asked about, one operation later. */
  function AskedNext(h: Host, op: Op, k: nat, asked: seq<string>): seq<string> {
    match op
    case Compile(_) => asked
    case Match(handle, input) => if handle == k && k in h.patterns then asked + [input] else asked
    case Free(handle) => if handle == k then [] else asked
  }

  /** The inputs a live handle was asked about since it was compiled. */
  function Asked(e: Engine, ops: seq<Op>, k: nat): seq<string> {
    if ops == [] then []
    else
      var before := ops[..|ops| - 1];
      AskedNext(Run(e, before), ops[|ops| - 1], k, Asked(e, before, k))
  }

  function Without(s: seq<string>, x: string): (r: seq<string>)
    ensures x !in r
  {
    if s == [] then [] else if s[0] == x then Without(s[1..], x) else [s[0]] + Without(s[1..], x)
  }

  /** The distinct inputs, most recently asked first. */
  function Recent(asked: seq<string>): seq<string> {
    if asked == [] then []
    else
      var x := asked[|asked| - 1];
      [x] + Without(Recent(asked[..|asked| - 1]), x)
  }

  function Newest(s: seq<string>): seq<string> {
    if |s| > 8 then s[..8] else s
  }

  function Inputs(memo: Memo): (r: seq<string>)
    ensures |r| == |memo|
  {
    seq(|memo|, k requires 0 <= k < |memo| => memo[k].input)
  }

  ghost predicate Distinct(s: seq<string>) {
    forall i, j :: 0 <= i < j < |s| ==> s[i] != s[j]
  }

  lemma {:induction false} WithoutAbsent(s: seq<string>, x: string)
    requires x !in s
    ensures Without(s, x) == s
  {
    if s != [] {
      WithoutAbsent(s[1..], x);
    }
  }

  lemma {:induction false} WithoutOne(s: seq<string>, i: nat)
    requires Distinct(s) && i < |s|
    ensures Without(s, s[i]) == s[..i] + s[i + 1..]
  {
    if i == 0 {
      assert s[0] !in s[1..] by {
        assert forall j :: 0 <= j < |s[1..]| ==> s[1..][j] == s[j + 1];
      }
      WithoutAbsent(s[1..], s[0]);
    } else {
      assert s[1..][i - 1] == s[i];
      WithoutOne(s[1..], i - 1);
      assert [s[0]] + (s[1..][..i - 1] + s[1..][i..]) == s[..i] + s[i + 1..];
    }
  }

  lemma {:induction false} RecentIsDistinct(asked: seq<string>)
    ensures Distinct(Recent(asked))
    decreases |asked|
  {
    if asked != [] {
      var x := asked[|asked| - 1];
      var r := Recent(asked[..|asked| - 1]);
      RecentIsDistinct(asked[..|asked| - 1]);
      if i: nat :| i < |r| && r[i] == x {
        WithoutOne(r, i);
      } else {
        WithoutAbsent(r, x);
      }
    }
  }

  /** Asking again keeps the memo equal to the newest distinct inputs. */
  lemma TouchedIsNewest(memo: Memo, r: seq<string>, input: string, matched: bool)
    requires Distinct(r) && Inputs(memo) == Newest(r)
    ensures Inputs(Touched(memo, input, matched)) == Newest([input] + Without(r, input))
  {
    var i := FindEntry(memo, input, 0);
    if i < |memo| {
      assert r[i] == Inputs(memo)[i] == input;
      WithoutOne(r, i);
      HitIsNewest(memo, r, i);
    } else {
      assert forall j :: 0 <= j < |memo| ==> r[j] == Inputs(memo)[j] != input;
      MissIsNewest(memo, r, input, matched);
    }
  }

  lemma HitIsNewest(memo: Memo, r: seq<string>, i: nat)
    requires Inputs(memo) == Newest(r) && i < |memo|
    ensures Inputs([memo[i]] + memo[..i] + memo[i + 1..]) == Newest([r[i]] + (r[..i] + r[i + 1..]))
  {
    InputsMove(memo, i);
    NewestMove(r, i);
  }

  lemma InputsMove(memo: Memo, i: nat)
    requires i < |memo|
    ensures var ins := Inputs(memo); Inputs([memo[i]] + memo[..i] + memo[i + 1..]) == [ins[i]] + (ins[..i] + ins[i + 1..])
  {
  }

  lemma NewestMove(r: seq<string>, i: nat)
    requires i < |Newest(r)|
    ensures var ns := Newest(r); Newest([r[i]] + (r[..i] + r[i + 1..])) == [ns[i]] + (ns[..i] + ns[i + 1..])
  {
    if |r| > MATCH_MEMO_CAPACITY {
      assert ([r[i]] + (r[..i] + r[i + 1..]))[..8] == [r[i]] + (r[..i] + r[i + 1..8]);
    }
  }

  lemma MissIsNewest(memo: Memo, r: seq<string>, input: string, matched: bool)
    requires Distinct(r) && Inputs(memo) == Newest(r)
    requires forall j :: 0 <= j < |memo| ==> r[j] != input
    ensures Inputs(Capped([Entry(input, matched)] + memo)) == Newest([input] + Without(r, input))
  {
    hide Without, Distinct;
    if |memo| < MATCH_MEMO_CAPACITY {
      ShortGrows(memo, Entry(input, matched));
      WithoutAbsent(r, input);
    } else {
      FarIsKept(r, input, 7);
      FullShifts(memo, Entry(input, matched));
      assert Inputs(memo)[..7] == r[..7];
      assert ([input] + Without(r, input))[..8] == [input] + Without(r, input)[..7];
    }
  }

  lemma ShortGrows(memo: Memo, e: Entry)
    requires |memo| < MATCH_MEMO_CAPACITY
    ensures Inputs(Capped([e] + memo)) == [e.input] + Inputs(memo)
  {
  }

  lemma FullShifts(memo: Memo, e: Entry)
    requires |memo| == MATCH_MEMO_CAPACITY
    ensures Inputs(Capped([e] + memo)) == [e.input] + Inputs(memo)[..7]
  {
  }

  lemma FarIsKept(r: seq<string>, input: string, n: nat)
    requires Distinct(r) && n < |r| && forall j :: 0 <= j <= n ==> r[j] != input
    ensures |Without(r, input)| >= n && Without(r, input)[..n] == r[..n]
  {
    if j: nat :| j < |r| && r[j] == input {
      WithoutOne(r, j);
    } else {
      WithoutAbsent(r, input);
    }
  }

  /** The memo of `k` holds right answers for exactly the newest distinct inputs asked, in recency order. */
  ghost predicate MemoOk(e: Engine, h: Host, k: nat, asked: seq<string>) {
    && (k in h.memos ==> k in h.patterns)
    && (k in h.patterns ==> 0 < k < h.next && Inputs(MemoOf(h, k)) == Newest(Recent(asked)))
    && (k !in h.patterns ==> asked == [])
    && (k in h.memos ==> forall i: nat :: i < |h.memos[k]| ==>
          h.memos[k][i].matched == e.test(h.patterns[k], h.memos[k][i].input))
  }

  lemma StepKeeps(e: Engine, h: Host, op: Op, k: nat, asked: seq<string>)
    requires MemoOk(e, h, k, asked) && h.next > 0
    ensures MemoOk(e, Step(e, h, op).0, k, AskedNext(h, op, k, asked))
  {
    if op.Match? && op.handle == k && k in h.patterns {
      AskKeeps(e, h, k, op.input, asked);
    }
  }

  lemma AskKeeps(e: Engine, h: Host, k: nat, input: string, asked: seq<string>)
    requires MemoOk(e, h, k, asked) && k in h.patterns
    ensures MemoOk(e, Step(e, h, Match(k, input)).0, k, asked + [input])
  {
    var memo := MemoOf(h, k);
    var i := FindEntry(memo, input, 0);
    var matched := if i < |memo| then memo[i].matched else e.test(h.patterns[k], input);
    RecentIsDistinct(asked);
    TouchedIsNewest(memo, Recent(asked), input, matched);
    assert (asked + [input])[..|asked|] == asked;
    TouchedIsRight(e, h.patterns[k], memo, input, matched);
  }

  lemma TouchedIsRight(e: Engine, re: RegExp, memo: Memo, input: string, matched: bool)
    requires forall i: nat :: i < |memo| ==> memo[i].matched == e.test(re, memo[i].input)
    requires FindEntry(memo, input, 0) == |memo| ==> matched == e.test(re, input)
    ensures var t := Touched(memo, input, matched);
            forall i: nat :: i < |t| ==> t[i].matched == e.test(re, t[i].input)
  {
  }

  lemma {:induction false} MemosAreRecent(e: Engine, ops: seq<Op>, k: nat)
    ensures MemoOk(e, Run(e, ops), k, Asked(e, ops, k)) && Run(e, ops).next > 0
    decreases |ops|
  {
    if ops != [] {
      var before := ops[..|ops| - 1];
      MemosAreRecent(e, before, k);
      StepKeeps(e, Run(e, before), ops[|ops| - 1], k, Asked(e, before, k));
    }
  }

  /** After any operations, the memo of a live handle is exactly its up to eight most recently asked distinct
      inputs, the latest first. */
  lemma MemoIsRecency(e: Engine, ops: seq<Op>, k: nat)
    requires k in Run(e, ops).patterns
    ensures Inputs(MemoOf(Run(e, ops), k)) == Newest(Recent(Asked(e, ops, k)))
    ensures Distinct(Inputs(MemoOf(Run(e, ops), k))) && |MemoOf(Run(e, ops), k)| <= 8
  {
    MemosAreRecent(e, ops, k);
    RecentIsDistinct(Asked(e, ops, k));
  }

  /** After any operations, a match answers as the RegExp itself: true only on a live handle whose test succeeds. */
  lemma MatchIsTest(e: Engine, ops: seq<Op>, handle: nat, input: string)
    ensures var patterns := Run(e, ops).patterns;
            LastAnswer(e, ops + [Match(handle, input)])
              == Matched(handle in patterns && e.test(patterns[handle], input))
  {
    MemosAreRecent(e, ops, handle);
    assert (ops + [Match(handle, input)])[..|ops|] == ops;
    var h := Run(e, ops);
    if handle in h.patterns {
      var memo := MemoOf(h, handle);
      var i := FindEntry(memo, input, 0);
      if i < |memo| {
        assert h.memos[handle][i].matched == e.test(h.patterns[handle], input);
      }
    }
  }

  lemma {:induction false} NextGrows(e: Engine, ops: seq<Op>, k: nat)
    requires k <= |ops|
    ensures Run(e, ops[..k]).next <= Run(e, ops).next
    decreases |ops|
  {
    if k == |ops| {
      assert ops[..k] == ops;
    } else {
      var n := |ops| - 1;
      assert ops[..n][..k] == ops[..k];
      NextGrows(e, ops[..n], k);
    }
  }

  /** A handle is handed out once: a later compile never returns it again, freed or not. */
  lemma HandlesAreNotReused(e: Engine, ops: seq<Op>, j: nat, k: nat)
    requires j < k < |ops| && ops[j].Compile? && ops[k].Compile?
    requires LastAnswer(e, ops[..j + 1]) != Handle(0) && LastAnswer(e, ops[..k + 1]) != Handle(0)
    ensures LastAnswer(e, ops[..j + 1]) != LastAnswer(e, ops[..k + 1])
  {
    assert ops[..j + 1][..j] == ops[..j] && ops[..k + 1][..k] == ops[..k];
    assert ops[..k][..j + 1] == ops[..j + 1];
    NextGrows(e, ops[..k], j + 1);
  }

  /** A freed handle stays dead, whatever comes after. */
  lemma {:induction false} FreedStaysDead(e: Engine, ops: seq<Op>, k: nat, handle: nat)
    requires k < |ops| && ops[k] == Free(handle) && handle < Run(e, ops[..k]).next
    ensures handle !in Run(e, ops).patterns && handle < Run(e, ops).next
    decreases |ops|
  {
    var n := |ops| - 1;
    assert Run(e, ops) == Step(e, Run(e, ops[..n]), ops[n]).0;
    hide Run;
    if k < n {
      assert ops[..n][..k] == ops[..k];
      FreedStaysDead(e, ops[..n], k, handle);
      StaysDead(e, Run(e, ops[..n]), ops[n], handle);
      hide Step;
    }
  }

  // ---------------------------------------------------------------- what a handle stands for

  /** The `k`-th operation is a compile that answered `handle`. */
  predicate IssuedAt(e: Engine, ops: seq<Op>, k: nat, handle: nat) {
    k < |ops| && ops[k].Compile? && LastAnswer(e, ops[..k + 1]) == Handle(handle) && handle != 0
  }

  /** `handle` came from the compile at `k` and has not been freed since. */
  predicate LiveSince(e: Engine, ops: seq<Op>, k: nat, handle: nat) {
    IssuedAt(e, ops, k, handle) && forall j :: k < j < |ops| ==> ops[j] != Free(handle)
  }

  predicate Holds(h: Host, handle: nat, raw: string) {
    handle < h.next && handle in h.patterns && Translate(raw) == Some(h.patterns[handle])
  }

  /** A compile is refused exactly when its pattern has no translation or the engine rejects the translation. */
  lemma CompileAnswers(e: Engine, ops: seq<Op>, raw: string)
    ensures LastAnswer(e, ops + [Compile(raw)]).Handle?
    ensures LastAnswer(e, ops + [Compile(raw)]) == Handle(0) <==> Translate(raw).None? || !e.accepts(Translate(raw).value)
  {
    assert (ops + [Compile(raw)])[..|ops|] == ops;
    MemosAreRecent(e, ops, 0);
  }

  lemma StillHolds(e: Engine, h: Host, op: Op, handle: nat, raw: string)
    requires Holds(h, handle, raw) && op != Free(handle)
    ensures Holds(Step(e, h, op).0, handle, raw)
  {
  }

  lemma {:induction false} PatternStays(e: Engine, ops: seq<Op>, k: nat, handle: nat)
    requires LiveSince(e, ops, k, handle)
    ensures Holds(Run(e, ops), handle, ops[k].raw)
    decreases |ops|
  {
    var n := |ops| - 1;
    assert Run(e, ops) == Step(e, Run(e, ops[..n]), ops[n]).0;
    if k == n {
      assert ops[..k + 1] == ops;
    } else {
      assert ops[..n][..k + 1] == ops[..k + 1];
      PatternStays(e, ops[..n], k, handle);
      StillHolds(e, Run(e, ops[..n]), ops[n], handle, ops[k].raw);
    }
  }

  lemma RunsOneMore(e: Engine, ops: seq<Op>)
    requires ops != []
    ensures var n := |ops| - 1; Run(e, ops) == Step(e, Run(e, ops[..n]), ops[n]).0
  {
  }

  lemma NewlyLive(e: Engine, h: Host, op: Op, handle: nat)
    requires h.next > 0 && handle in Step(e, h, op).0.patterns && (handle !in h.patterns || op == Free(handle))
    ensures op.Compile? && Step(e, h, op).1 == Handle(handle) && handle != 0
  {
  }

  /** Whatever is live was handed out by some compile, and not freed since. */
  lemma {:induction false} LiveHasOrigin(e: Engine, ops: seq<Op>, handle: nat) returns (k: nat)
    requires handle in Run(e, ops).patterns
    ensures LiveSince(e, ops, k, handle)
    decreases |ops|
  {
    assert ops != [];
    var n := |ops| - 1;
    var before := ops[..n];
    hide Run, Step, MemoOk, Translate;
    RunsOneMore(e, ops);
    MemosAreRecent(e, before, 0);
    if handle !in Run(e, before).patterns || ops[n] == Free(handle) {
      NewlyLive(e, Run(e, before), ops[n], handle);
    }
    if handle in Run(e, before).patterns && ops[n] != Free(handle) {
      k := LiveHasOrigin(e, before, handle);
      assert before[..k + 1] == ops[..k + 1];
    } else {
      k := n;
      assert ops[..k + 1] == ops;
    }
  }

  /** A match answers as the RegExp its pattern translates to, from the compile that handed the handle out until it
      is freed; on every other handle it answers false. */
  lemma MatchAnswersForItsPattern(e: Engine, ops: seq<Op>, handle: nat, input: string)
    ensures forall k: nat :: LiveSince(e, ops, k, handle) ==>
              && Translate(ops[k].raw).Some?
              && LastAnswer(e, ops + [Match(handle, input)]) == Matched(e.test(Translate(ops[k].raw).value, input))
    ensures (forall k: nat :: !LiveSince(e, ops, k, handle)) ==> LastAnswer(e, ops + [Match(handle, input)]) == Matched(false)
  {
    MatchIsTest(e, ops, handle, input);
    forall k: nat | LiveSince(e, ops, k, handle) ensures Holds(Run(e, ops), handle, ops[k].raw) {
      PatternStays(e, ops, k, handle);
    }
    if handle in Run(e, ops).patterns {
      var k := LiveHasOrigin(e, ops, handle);
    }
  }

  lemma StaysDead(e: Engine, h: Host, op: Op, handle: nat)
    requires handle !in h.patterns && handle < h.next
    ensures var t := Step(e, h, op).0; handle !in t.patterns && handle < t.next
  {
  }
}
