/** What patching does to a well-formed module (sections 5.3.4, 5.5.2 and 5.5.8 of the WebAssembly Core
    Specification 1.0). */
module WasmModule {
  import opened Bytes
  import opened Uleb
  import opened WasmPatch
  import opened Wrappers

  // ---------------------------------------------------------------- the format

  datatype Section = Section(id: byte, size: Bytes, content: Bytes)

  /** One memory: the entry count, the limits' flags and minimum, and the maximum's bytes if there is one. */
  datatype Memory = Memory(count: Bytes, flags: byte, min: Bytes, max: Bytes)

  /** Everything in front of the memory section, its size as written, the memory, everything behind it. */
  datatype Module = Module(header: Bytes, before: seq<Section>, size: Bytes, memory: Memory, behind: Bytes)

  predicate IsSection(s: Section) {
    IsU32(s.size) && Value(s.size) == |s.content|
  }

  /** Well-formed sections, none of them a memory section; that one has id 5. */
  predicate OtherSections(ss: seq<Section>) {
    forall s :: s in ss ==> IsSection(s) && s.id != 5
  }

  /** The magic number `\0asm`, and four bytes of version. */
  predicate IsHeader(header: Bytes) {
    |header| == 8 && header[..4] == [0x00, 0x61, 0x73, 0x6D]
  }

  predicate IsMemory(m: Memory) {
    && IsU32(m.count) && Value(m.count) == 1 && IsU32(m.min)
    && if m.flags % 2 == 1 then IsU32(m.max) else m.max == []
  }

  function SectionBytes(s: Section): (bs: Bytes) {
    [s.id] + s.size + s.content
  }

  function SectionsBytes(ss: seq<Section>): Bytes {
    if ss == [] then [] else SectionBytes(ss[0]) + SectionsBytes(ss[1..])
  }

  function MemoryContent(m: Memory): Bytes {
    m.count + [m.flags] + m.min + m.max
  }

  predicate IsModule(m: Module) {
    && IsHeader(m.header) && OtherSections(m.before) && IsMemory(m.memory)
    && IsU32(m.size) && Value(m.size) == |MemoryContent(m.memory)|
  }

  function MemorySection(m: Module): Section {
    Section(5, m.size, MemoryContent(m.memory))
  }

  /** A section with everything around it. */
  function Around(header: Bytes, before: seq<Section>, own: Section, behind: Bytes): Bytes {
    header + SectionsBytes(before) + SectionBytes(own) + behind
  }

  function ModuleBytes(m: Module): Bytes {
    Around(m.header, m.before, MemorySection(m), m.behind)
  }

  // ---------------------------------------------------------------- finding the memory section

  /** The walk skips a section whatever its content holds. */
  lemma SkipsOne(wasm: Bytes, i: nat, s: Section)
    requires IsSection(s) && At(SectionBytes(s), wasm, i)
    ensures i < |wasm| && wasm[i] == s.id
    ensures ReadUleb(wasm, i + 1) == Number(|s.content|, i + 1 + |s.size|)
  {
    var all := SectionBytes(s);
    assert wasm[i..i + |all|][0] == s.id;
    assert all[1..1 + |s.size|] == s.size;
    Nest(s.size, all, wasm, 1, i);
    ReadsValue(wasm, i + 1, s.size);
  }

  lemma SkipStep(wasm: Bytes, i: nat, s: Section)
    requires IsSection(s) && At(SectionBytes(s), wasm, i) && s.id != 5
    ensures FindMemory(wasm, i) == FindMemory(wasm, i + |SectionBytes(s)|)
  {
    SkipsOne(wasm, i, s);
    WalkStep(wasm, i);
  }

  /** The sections stand one behind the other from `i` to `end`. */
  ghost predicate Standing(ss: seq<Section>, wasm: Bytes, i: nat, end: nat) {
    if ss == [] then i == end
    else
      && At(SectionBytes(ss[0]), wasm, i) && IsSection(ss[0]) && ss[0].id != 5
      && Standing(ss[1..], wasm, i + |SectionBytes(ss[0])|, end)
  }

  lemma {:induction false} Stand(ss: seq<Section>, wasm: Bytes, i: nat)
    requires OtherSections(ss) && At(SectionsBytes(ss), wasm, i)
    ensures Standing(ss, wasm, i, i + |SectionsBytes(ss)|)
    decreases |ss|
  {
    if ss != [] {
      AtHalves(SectionBytes(ss[0]), SectionsBytes(ss[1..]), wasm, i);
      Stand(ss[1..], wasm, i + |SectionBytes(ss[0])|);
    }
  }

  lemma {:induction false} SkipsAll(ss: seq<Section>, wasm: Bytes, i: nat, end: nat)
    requires Standing(ss, wasm, i, end)
    ensures FindMemory(wasm, i) == FindMemory(wasm, end)
    decreases |ss|
  {
    if ss != [] {
      var next := i + |SectionBytes(ss[0])|;
      SkipStep(wasm, i, ss[0]);
      hide FindMemory, At;
      SkipsAll(ss[1..], wasm, next, end);
    }
  }

  /** Where the parts of the memory section stand. */
  function IdAt(m: Module): nat {
    |m.header| + |SectionsBytes(m.before)|
  }

  function ContentAt(m: Module): nat {
    IdAt(m) + 1 + |m.size|
  }

  function EndAt(m: Module): nat {
    ContentAt(m) + |MemoryContent(m.memory)|
  }

  /** The parts of a module stand where they should. */
  lemma Layout(m: Module)
    requires IsHeader(m.header)
    ensures var wasm := ModuleBytes(m);
            && IsWasm(wasm) && At(SectionsBytes(m.before), wasm, 8) && At(SectionBytes(MemorySection(m)), wasm, IdAt(m))
  {
    LaidOut(m.header, m.before, MemorySection(m), m.behind);
  }

  lemma LaidOut(header: Bytes, before: seq<Section>, own: Section, behind: Bytes)
    requires IsHeader(header)
    ensures var wasm := Around(header, before, own, behind);
            && IsWasm(wasm) && At(SectionsBytes(before), wasm, 8)
            && At(SectionBytes(own), wasm, 8 + |SectionsBytes(before)|)
  {
    hide SectionsBytes, SectionBytes;
    var wasm := header + SectionsBytes(before) + SectionBytes(own) + behind;
    assert wasm[..8] == header && wasm[..4] == header[..4];
    MagicNumber(wasm);
    hide IsWasm;
  }

  lemma MemoryLayout(m: Module)
    requires IsHeader(m.header)
    ensures At(MemoryContent(m.memory), ModuleBytes(m), ContentAt(m))
  {
    Layout(m);
    AtHalves([5] + m.size, MemoryContent(m.memory), ModuleBytes(m), IdAt(m));
  }

  lemma FindsMemory(m: Module)
    requires IsModule(m)
    ensures FindMemory(ModuleBytes(m), 8) == Ok(Some(Place(IdAt(m), ContentAt(m), EndAt(m))))
  {
    hide FindMemory, Standing, SectionsBytes, ModuleBytes, MemoryContent, At;
    Layout(m);
    Stand(m.before, ModuleBytes(m), 8);
    FindsFrom(ModuleBytes(m), 8, m.before, MemorySection(m), IdAt(m));
  }

  lemma FindsFrom(wasm: Bytes, i: nat, ss: seq<Section>, own: Section, at: nat)
    requires Standing(ss, wasm, i, at) && IsSection(own) && own.id == 5 && At(SectionBytes(own), wasm, at)
    ensures var start: nat := at + 1 + |own.size|;
            FindMemory(wasm, i) == Ok(Some(Place(at, start, start + |own.content|)))
  {
    hide FindMemory, Standing, SectionBytes, At, ReadUleb;
    SkipsAll(ss, wasm, i, at);
    SkipsOne(wasm, at, own);
    WalkStep(wasm, at);
  }

  /** A module none of whose sections is a memory section. */
  lemma FindsNone(header: Bytes, ss: seq<Section>)
    requires IsHeader(header) && OtherSections(ss)
    ensures var wasm := header + SectionsBytes(ss); IsWasm(wasm) && FindMemory(wasm, 8) == Ok(None)
  {
    var wasm := header + SectionsBytes(ss);
    assert wasm[..8] == header;
    Stand(ss, wasm, 8);
    SkipsAll(ss, wasm, 8, |wasm|);
  }

  /** Looking up the id byte again finds the section the first walk found. */
  lemma {:induction false} FindsIdAgain(wasm: Bytes, i: nat)
    requires FindMemory(wasm, i).Ok? && FindMemory(wasm, i).value.Some?
    ensures var place := FindMemory(wasm, i).value.value;
            SectionIdAt(wasm, i, place.start, 5) == Ok(place.idAt)
    decreases |wasm| - i
  {
    var Number(size, after) := ReadUleb(wasm, i + 1);
    if wasm[i] != 5 {
      FindsIdAgain(wasm, after + size);
    }
  }

  /** The numbers inside a memory section whose content starts at `start`. */
  ghost predicate ReadsAs(wasm: Bytes, start: nat, mem: Memory)
    requires IsMemory(mem)
  {
    var countEnd: nat := start + |mem.count|;
    && ReadUleb(wasm, start) == Number(1, countEnd)
    && ByteAt(wasm, countEnd) == mem.flags
    && ReadUleb(wasm, countEnd + 1) == Number(Value(mem.min), countEnd + 1 + |mem.min|)
  }

  lemma ReadsMemory(m: Module)
    requires IsModule(m)
    ensures ReadsAs(ModuleBytes(m), ContentAt(m), m.memory)
  {
    MemoryLayout(m);
    ReadsContent(ModuleBytes(m), ContentAt(m), m.memory);
  }

  lemma ReadsContent(wasm: Bytes, start: nat, mem: Memory)
    requires IsMemory(mem) && At(MemoryContent(mem), wasm, start)
    ensures ReadsAs(wasm, start, mem)
  {
    hide ReadUleb, IsU32, Value;
    var at := start + |mem.count|;
    AtHalves(mem.count + [mem.flags] + mem.min, mem.max, wasm, start);
    AtHalves(mem.count + [mem.flags], mem.min, wasm, start);
    AtHalves(mem.count, [mem.flags], wasm, start);
    assert ByteAt(wasm, at) == mem.flags by {
      assert wasm[at..at + 1] == [mem.flags];
      assert wasm[at] == wasm[at..at + 1][0];
    }
    ReadsValue(wasm, start, mem.count);
    ReadsValue(wasm, at + 1, mem.min);
  }

  // ---------------------------------------------------------------- the patch

  /** The module with the memory's minimum set to `pages`, all numbers of the section written afresh. */
  function WithMin(m: Module, pages: int): Module {
    var mem := m.memory.(count := [1], min := WriteUleb(ToUint32(pages)));
    m.(size := WriteUleb(|MemoryContent(mem)|), memory := mem)
  }

  function Grown(m: Module, pages: int): Module {
    if Value(m.memory.min) >= pages then m else WithMin(m, pages)
  }

  /** The patched module is well-formed: flags, maximum and every other byte of the module are as before. */
  lemma GrownIsModule(m: Module, pages: int)
    requires IsModule(m)
    ensures IsModule(Grown(m, pages))
    ensures var g := Grown(m, pages);
            g.header == m.header && g.before == m.before && g.behind == m.behind &&
            g.memory.flags == m.memory.flags && g.memory.max == m.memory.max
  {
    var mem := WithMin(m, pages).memory;
    WrittenIsU32(ToUint32(pages));
    WrittenIsU32(|MemoryContent(mem)|);
    assert Value([1]) == 1 by { assert [1 as byte][1..] == []; }
  }

  /** Patching a well-formed module writes exactly that module's bytes. */
  lemma PatchGrows(m: Module, pages: int)
    requires IsModule(m)
    ensures Patched(ModuleBytes(m), pages) == Ok(ModuleBytes(Grown(m, pages)))
  {
    var wasm := ModuleBytes(m);
    Layout(m);
    FindsMemory(m);
    PatchesThere(wasm, Place(IdAt(m), ContentAt(m), EndAt(m)), pages);
    if Value(m.memory.min) >= pages {
      ReadsMemory(m);
      KeepsLarge(wasm, ContentAt(m), EndAt(m), pages, m.memory);
    } else {
      PatchesSection(m, pages);
    }
  }

  lemma PatchesThere(wasm: Bytes, place: Place, pages: int)
    requires IsWasm(wasm) && FindMemory(wasm, 8) == Ok(Some(place))
    ensures Patched(wasm, pages) == PatchedAt(wasm, place.start, place.end, pages)
  {
  }

  lemma KeepsLarge(wasm: Bytes, start: nat, end: nat, pages: int, mem: Memory)
    requires IsMemory(mem) && ReadsAs(wasm, start, mem) && Value(mem.min) >= pages
    ensures PatchedAt(wasm, start, end, pages) == Ok(wasm)
  {
    hide IsMemory, ReadUleb, ByteAt, SectionIdAt, Window, WriteUleb;
  }

  lemma PatchesSection(m: Module, pages: int)
    requires IsModule(m) && Value(m.memory.min) < pages
    ensures PatchedAt(ModuleBytes(m), ContentAt(m), EndAt(m), pages) == Ok(ModuleBytes(WithMin(m, pages)))
  {
    ReadsMemory(m);
    FindsId(m);
    Surroundings(m);
    WithMinBytes(m, pages);
    SplicesMemory(ModuleBytes(m), ContentAt(m), EndAt(m), pages, m.memory, IdAt(m),
                  m.header + SectionsBytes(m.before) + [5], m.behind);
  }

  lemma SplicesMemory(wasm: Bytes, start: nat, end: nat, pages: int, mem: Memory, idAt: nat, front: Bytes,
                      behind: Bytes)
    requires IsMemory(mem) && end == start + |MemoryContent(mem)| && Value(mem.min) < pages
    requires ReadsAs(wasm, start, mem) && SectionIdAt(wasm, 8, start, 5) == Ok(idAt)
    requires Window(wasm, 0, idAt + 1) == front && Window(wasm, end, |wasm|) == behind
    requires Window(wasm, end - |mem.max|, end) == mem.max
    ensures var content := NewContent(mem.flags, pages, mem.max);
            PatchedAt(wasm, start, end, pages) == Ok(front + WriteUleb(ToUint32(|content|)) + content + behind)
  {
    var countEnd := start + |mem.count|;
    SplicesAt(wasm, start, end, pages, countEnd, Value(mem.min), countEnd + 1 + |mem.min|, mem.flags, mem.max, idAt);
  }

  lemma FindsId(m: Module)
    requires IsModule(m)
    ensures SectionIdAt(ModuleBytes(m), 8, ContentAt(m), 5) == Ok(IdAt(m))
  {
    FindsMemory(m);
    FindsIdAgain(ModuleBytes(m), 8);
  }

  /** What the patch splices together when the reads go well and the section is there. */
  lemma SplicesAt(wasm: Bytes, start: nat, end: nat, pages: int, countEnd: nat, min: u32, afterMin: nat, flags: byte,
                  max: Bytes, idAt: nat)
    requires ReadUleb(wasm, start) == Number(1, countEnd) && ReadUleb(wasm, countEnd + 1) == Number(min, afterMin)
    requires min < pages && ByteAt(wasm, countEnd) == flags && SectionIdAt(wasm, 8, start, 5) == Ok(idAt)
    requires end == afterMin + |max| && Window(wasm, afterMin, end) == max && (flags % 2 == 0 ==> max == [])
    ensures var content := NewContent(flags, pages, max);
            PatchedAt(wasm, start, end, pages) ==
              Ok(Window(wasm, 0, idAt + 1) + WriteUleb(ToUint32(|content|)) + content + Window(wasm, end, |wasm|))
  {
    hide ReadUleb, SectionIdAt, Window, WriteUleb, ByteAt, NewContent, ToUint32;
    FilledUp(max);
    hide Filled;
  }

  lemma FilledUp(max: Bytes)
    ensures Filled(max, |max|) == max
  {
  }

  /** What stands in front of the section's size, behind its minimum, and behind it. */
  lemma Surroundings(m: Module)
    requires IsModule(m)
    ensures var wasm := ModuleBytes(m);
            && Window(wasm, 0, IdAt(m) + 1) == m.header + SectionsBytes(m.before) + [5]
            && Window(wasm, EndAt(m) - |m.memory.max|, EndAt(m)) == m.memory.max
            && Window(wasm, EndAt(m), |wasm|) == m.behind
  {
    var rear := m.memory.count + [m.memory.flags] + m.memory.min;
    Regroup(m.header + SectionsBytes(m.before), m.size, rear, m.memory.max, m.behind);
    Windows(m.header + SectionsBytes(m.before) + [5], m.size + rear, m.memory.max, m.behind);
  }

  lemma Regroup(front: Bytes, size: Bytes, rear: Bytes, max: Bytes, behind: Bytes)
    ensures front + ([5] + size + (rear + max)) + behind
         == front + [5] + (size + rear) + max + behind
  {
  }

  lemma Windows(front: Bytes, middle: Bytes, max: Bytes, behind: Bytes)
    ensures var all := front + middle + max + behind; var end := |front| + |middle| + |max|;
            && Window(all, 0, |front|) == front
            && Window(all, end - |max|, end) == max
            && Window(all, end, |all|) == behind
  {
  }

  lemma WithMinBytes(m: Module, pages: int)
    requires IsModule(m)
    ensures var content := NewContent(m.memory.flags, pages, m.memory.max);
            ModuleBytes(WithMin(m, pages)) ==
              m.header + SectionsBytes(m.before) + [5] + WriteUleb(ToUint32(|content|)) + content + m.behind
  {
    assert |m.memory.max| <= 5;
    var content := NewContent(m.memory.flags, pages, m.memory.max);
    NewContentLength(m, pages);
    ContentWritten(m, pages);
    UnfoldWithMin(m, pages);
    hide *;
    RegroupSection(m.header + SectionsBytes(m.before), WriteUleb(|content|), content, m.behind);
  }

  lemma UnfoldWithMin(m: Module, pages: int)
    ensures var content := MemoryContent(WithMin(m, pages).memory);
            ModuleBytes(WithMin(m, pages)) ==
              m.header + SectionsBytes(m.before) + ([5] + WriteUleb(|content|) + content) + m.behind
  {
  }

  lemma ContentWritten(m: Module, pages: int)
    ensures MemoryContent(WithMin(m, pages).memory) == NewContent(m.memory.flags, pages, m.memory.max)
  {
  }

  lemma NewContentLength(m: Module, pages: int)
    requires IsModule(m)
    ensures var content := NewContent(m.memory.flags, pages, m.memory.max); ToUint32(|content|) == |content|
  {
    WrittenAtMostFive(ToUint32(pages));
  }

  lemma WrittenAtMostFive(v: u32)
    ensures |WriteUleb(v)| <= 5
  {
    WrittenIsU32(v);
  }

  lemma RegroupSection(front: Bytes, size: Bytes, content: Bytes, behind: Bytes)
    ensures front + ([5] + size + content) + behind == front + [5] + size + content + behind
  {
  }

  // ---------------------------------------------------------------- what is left alone

  /** Bytes that do not begin with the magic number are refused, and have no pages to read. */
  lemma OtherBytesAreRefused(wasm: Bytes, pages: int)
    requires |wasm| < 8 || wasm[..4] != [0x00, 0x61, 0x73, 0x6D]
    ensures Patched(wasm, pages) == Err(NotWasm) && InitialPages(wasm) == Ok(None)
  {
    if |wasm| >= 8 {
      MagicNumber(wasm);
    }
  }

  lemma MagicNumber(wasm: Bytes)
    requires |wasm| >= 8
    ensures IsWasm(wasm) <==> wasm[..4] == [0x00, 0x61, 0x73, 0x6D]
  {
    assert forall k :: 0 <= k < 4 ==> wasm[..4][k] == wasm[k];
  }

  /** A memory section that does not hold exactly one memory, whatever follows its count. */
  lemma SeveralMemoriesAreKept(header: Bytes, before: seq<Section>, own: Section, count: Bytes, rest: Bytes, behind: Bytes,
                               pages: int)
    requires IsHeader(header) && OtherSections(before) && IsSection(own) && own.id == 5
    requires IsU32(count) && Value(count) != 1 && own.content == count + rest
    ensures var wasm := Around(header, before, own, behind);
            Patched(wasm, pages) == Ok(wasm) && InitialPages(wasm) == Ok(None)
  {
    hide *;
    var at := 8 + |SectionsBytes(before)|;
    var wasm := Around(header, before, own, behind);
    LaidOut(header, before, own, behind);
    SectionIsFound(wasm, before, own, at);
    ContentStands(wasm, at, own);
    ReadsCount(wasm, at + 1 + |own.size|, count, rest);
    NotOneMemory(wasm, at, own, Value(count), at + 1 + |own.size| + |count|, pages);
  }

  lemma SectionIsFound(wasm: Bytes, before: seq<Section>, own: Section, at: nat)
    requires OtherSections(before) && At(SectionsBytes(before), wasm, 8) && at == 8 + |SectionsBytes(before)|
    requires IsSection(own) && own.id == 5 && At(SectionBytes(own), wasm, at)
    ensures FindMemory(wasm, 8) == Ok(Some(Place(at, at + 1 + |own.size|, at + 1 + |own.size| + |own.content|)))
  {
    hide *;
    Stand(before, wasm, 8);
    FindsFrom(wasm, 8, before, own, at);
  }

  lemma NotOneMemory(wasm: Bytes, at: nat, own: Section, count: u32, after: nat, pages: int)
    requires var start: nat := at + 1 + |own.size|;
             && IsWasm(wasm) && FindMemory(wasm, 8) == Ok(Some(Place(at, start, start + |own.content|)))
             && ReadUleb(wasm, start) == Number(count, after) && count != 1
    ensures Patched(wasm, pages) == Ok(wasm) && InitialPages(wasm) == Ok(None)
  {
    hide IsWasm, FindMemory, ReadUleb, SectionIdAt, WriteUleb, Window;
  }

  lemma ContentStands(wasm: Bytes, at: nat, own: Section)
    requires At(SectionBytes(own), wasm, at)
    ensures At(own.content, wasm, at + 1 + |own.size|)
  {
    AtHalves([own.id] + own.size, own.content, wasm, at);
    hide At;
  }

  lemma ReadsCount(wasm: Bytes, start: nat, count: Bytes, rest: Bytes)
    requires IsU32(count) && At(count + rest, wasm, start)
    ensures ReadUleb(wasm, start) == Number(Value(count), start + |count|)
  {
    AtHalves(count, rest, wasm, start);
    hide At, ReadUleb;
    ReadsValue(wasm, start, count);
  }

  /** A size field that goes on for six bytes makes both functions throw. */
  lemma LongSizesThrow(wasm: Bytes, before: seq<Section>, at: nat, pages: int)
    requires |wasm| >= 8 && wasm[..4] == [0x00, 0x61, 0x73, 0x6D] && OtherSections(before)
    requires At(SectionsBytes(before), wasm, 8) && at == 8 + |SectionsBytes(before)| < |wasm|
    requires forall i: nat :: at + 1 <= i < at + 7 ==> ByteAt(wasm, i) >= 128
    ensures Patched(wasm, pages) == Err(UlebTooLarge) && InitialPages(wasm) == Err(UlebTooLarge)
  {
    hide SectionsBytes, Standing, FindMemory, ReadUleb, At, ByteAt, OtherSections, IsWasm;
    MagicNumber(wasm);
    Stand(before, wasm, 8);
    SkipsAll(before, wasm, 8, at);
    FailsOnLongNumbers(wasm, at + 1);
    WalkStep(wasm, at);
  }

  // ---------------------------------------------------------------- reading back

  /** Reading a well-formed module gives its minimum. */
  lemma ReadsMin(m: Module)
    requires IsModule(m)
    ensures InitialPages(ModuleBytes(m)) == Ok(Some(Value(m.memory.min)))
  {
    hide FindMemory, ModuleBytes, MemoryContent, IsWasm;
    Layout(m);
    FindsMemory(m);
    ReadsMemory(m);
  }

  lemma GrownMin(m: Module, pages: int)
    requires pages < 0x1_0000_0000
    ensures Value(Grown(m, pages).memory.min) == if Value(m.memory.min) >= pages then Value(m.memory.min) else pages
  {
    WrittenDenotes(ToUint32(pages));
  }

  /** After patching, the module asks for the larger of what it asked for and `pages`. */
  lemma PatchedReadsBack(m: Module, pages: int)
    requires IsModule(m) && pages < 0x1_0000_0000
    ensures Patched(ModuleBytes(m), pages).Ok?
    ensures InitialPages(Patched(ModuleBytes(m), pages).value)
         == Ok(Some(if Value(m.memory.min) >= pages then Value(m.memory.min) else pages))
  {
    var g := Grown(m, pages);
    PatchGrows(m, pages);
    GrownIsModule(m, pages);
    GrownMin(m, pages);
    ReadsMin(g);
  }

  lemma GrownTwice(m: Module, p: int, q: int)
    requires p < 0x1_0000_0000 && q < 0x1_0000_0000
    ensures Grown(Grown(m, p), q) == Grown(m, if p >= q then p else q)
  {
    GrownMin(m, p);
  }

  /** Two patches are one patch with the larger number of pages; in particular patching is idempotent. */
  lemma PatchesJoin(m: Module, p: int, q: int)
    requires IsModule(m) && p < 0x1_0000_0000 && q < 0x1_0000_0000
    ensures Patched(ModuleBytes(m), p).Ok?
    ensures Patched(Patched(ModuleBytes(m), p).value, q) == Patched(ModuleBytes(m), if p >= q then p else q)
  {
    var g, larger := Grown(m, p), if p >= q then p else q;
    PatchGrows(m, p);
    PatchGrows(m, larger);
    GrownIsModule(m, p);
    PatchGrows(g, q);
    GrownTwice(m, p, q);
  }

  /** Without a memory section the bytes stay as they are, and there are no pages to read. */
  lemma NoMemoryNoChange(header: Bytes, ss: seq<Section>, pages: int)
    requires IsHeader(header) && OtherSections(ss)
    ensures var wasm := header + SectionsBytes(ss); Patched(wasm, pages) == Ok(wasm) && InitialPages(wasm) == Ok(None)
  {
    FindsNone(header, ss);
  }
}
