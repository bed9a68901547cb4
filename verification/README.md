# coraza-node, verified

A model of the hard parts of coraza-node, a web application firewall that runs Coraza as WebAssembly inside Node, and
proofs about it. `dafny verify dfyconfig.toml` checks everything.

**The regex prefilter** (`Utf8`, `Regex`, `Literals`, `LiteralsSound`, `Prefilter`, `PrefilterLimits`,
`PrefilterExact`, `PrefilterMinLen`, `PrefilterShapes`, `PrefilterRejects`, `WuManber`, `HostRx`). Before an `@rx`
rule runs its regular expression, a test built from the syntax tree decides whether the engine is needed at all.
`Regex` gives trees and what they match, as a predicate on byte positions; `Literals` is the walk over the tree that
extracts required strings; `Prefilter` builds the test from them, as a value whose meaning is `Accepts`; `HostRx` is
the operator that runs it, with the string searches and the Wu-Manber searcher as loops over bytes and tables. The
main theorem says that the test never rejects an input the regex matches. It carries three conditions (`Admissible`):
folding literals are stored as Go's parser stores them, a reconstructed trie has its suffixes directly behind its
prefix, and a literal tested as prefix or suffix stands directly at its anchor. All three are functions of the tree
alone. The comment at wasm/rxprefilter.go:34-41 calls the test safe by construction; the code is not so without the
last two, and `PrefilterLimits` gives for each a family of patterns with the exact condition under which the test is
safe, and for the first a pattern that needs it. `PrefilterShapes` gives plain shapes that meet the two in trees of
any form: rebuilding only literal tries, of any depth, and a literal directly beside each anchor. That every input let
through matches is neither promised nor true in general. What is let through is stated exactly: `PrefilterRejects` has
the test's answer on every tree of words, gaps, anchors and alternations of words, `PrefilterExact` shows that for word
lists, factored or not, the test decides the regex by itself, and `PrefilterMinLen` that the length bound is attained.

**The worker pool** (`PoolModel`, `PoolInvariant`, `PoolRuns`, `PoolRotation`, `PoolLatch`, `PoolBalance`,
`PoolReleases`, `PoolDispatch`, `WafPool`). Transactions are pinned to worker threads, workers are replaced in place
after a number of requests, and an old worker is shut down once it is idle. `PoolModel` has the pool's state, the
workers' states and the messages in flight, and one function for each turn of the event loop; `PoolRuns` lets clients,
workers, replies, rotations, errors and exits interleave in any order. The results hold in every state of every run.
`WafPool` is the pool and its worker as objects whose methods update the same state. The worker's `close` deletes a
transaction only after `tx.close()` returned, so one that traps stays in the worker's map; the conservation law counts
these, `PoolReleases` ties the count to the run's events and shows a run in which the law without it fails. A
replacement that exits before it is online, without an error event, settles nothing: `PoolBalance` proves that its
worker then stays latched and is never replaced.

**The WebAssembly patcher** (`Uleb`, `WasmPatch`, `WasmModule`). LEB128 numbers with JavaScript's 32-bit shifts, the
walk over sections, the splice, and what they do to any well-formed module (WebAssembly Core Specification 1.0).

**The wire formats** (`Wire`, `Headers`, `Bundle`, `JsText`, `RequestBundle`, `Json`). The request bundle is written
in TypeScript and read in Go; the header packet is written on both sides. Both are proved to be round trips and
canonical, and the whole way from a request's strings (UTF-16, encoded to UTF-8 in one shared scratch buffer, clipped
between characters) to the fields the Go side decodes is one theorem. Where Go's 32-bit offsets would wrap, the model
says so (`Crashed`, `Panic`); the round trips need only that the packet's length is a non-negative int32, as the ABI
has it.

**Two refinements** (`HostRegex`, `Ignore`). The per-handle memo in front of `RegExp` never shows in the answers. A
route glob, compiled to regular expression source, means what the glob means. The comment at
packages/core/src/ignore.ts:69-70 says that `*` matches path segments; the code lets it match any run of characters of
one line, possibly empty, and the model follows the code. That a legacy prefix keeps its meaning
(packages/core/src/skip.ts:93-98) is true exactly for prefixes without `*` and `?`.

Dafny functions carry the specification; methods with loops, arrays and fields follow the imperative code and are
proved equal to them; lemmas state what the specification promises. A regular expression engine, the fold orbit of a
rune and its lower-case form are parameters (`Engine`, `CaseTable`), and so is how a wrapped WAF call ends
(`Outcome`).

## Model

| member | source | states |
|---|---|---|
| `Prefilter.PrefilterSound` | wasm/rxprefilter.go:160-324 | for every regex meeting `Admissible` and every input: if the regex matches some substring, the compiled prefilter (length guard, all-of, any-of, combined, ASCII guard) lets the input through |
| `Prefilter.MatchPasses` | wasm/rxprefilter.go:160-324 | the same for one match at a given place, which is what the operator needs |
| `PrefilterRejects.Decides` | wasm/rxprefilter.go:160-324 | the rejecting half, exactly: for every tree of words, gaps, anchors and alternations of words, under groups and repetitions, there is a prefilter if and only if something can be tested, and it lets a value through if and only if the value is long enough, the anchored words stand at their anchors, every other word is found in it and so is one word of the alternation with the fewest; folding, a value with non-ASCII bytes always is |
| `PrefilterRejects.SentenceIsDecided` | wasm/rxprefilter.go:160-324 | the same spelled out for words separated by gaps, perhaps with an alternation behind them, folding or not |
| `HostRx.HostRx.Evaluate` | wasm/hostrx.go:79-130 | a host-compiled pattern answers true exactly when the host does and both guards pass, any other exactly when the fallback does; with an admissible regex and an exact engine the guards change nothing |
| `HostRx.HostRx.constructor` | wasm/hostrx.go:50-77 | a pattern that parses gets its minimum length and its prefilter whichever engine runs it; one that does not gets neither, so the engine always runs |
| `HostRx.HostRx.NewHostRX` | wasm/hostrx.go:50-77 | the host's engine if it compiles the pattern, else Go's, and a compile error if and only if neither does |
| `HostRx.MatchingValuePasses` | wasm/hostrx.go:80-87 | a value the regex matches is at least as long as the minimum length and passes the prefilter |
| `Regex.MinLenIsLowerBound` | wasm/rxprefilter.go:93-155 | every match of every node spans at least `minLen` bytes: multi-byte runes, U+FFFD for one invalid byte, alternation minima, repeat products |
| `LiteralsSound.ExtractSound` | wasm/rxprefilter.go:350-524 | what literal extraction calls required does occur inside every match, in order-free all-of, any-of and combined form |
| `LiteralsSound.CollectSound` | wasm/rxprefilter.go:375-467 | the literals gathered over a concatenation all occur in the text its children match, and one of the kept any-of set does |
| `LiteralsSound.ExtractNonEmpty` | wasm/rxprefilter.go:350-524 | no extracted set is empty, and every extracted string has at least two bytes |
| `LiteralsSound.LeadSound` | wasm/rxprefilter.go:196-231 | the literal a begin-anchored pattern shows in front stands at the very start of every match: what makes the prefix test right |
| `LiteralsSound.TrailSound` | wasm/rxprefilter.go:196-231 | the literal an end-anchored pattern shows at its end stands at the very end of every match: what makes the suffix test right |
| `LiteralsSound.SuffixesLead` | wasm/rxprefilter.go:591-656 | every match of a node whose suffixes are led begins with one of the strings `rawExtractSuffixes` returns |
| `LiteralsSound.TrieLeads` | wasm/rxprefilter.go:542-582 | every match of a reconstructed concatenation begins with one of the glued prefix+suffix strings |
| `PrefilterLimits.TrieIsLed` | wasm/rxprefilter.go:542-656 | for a literal trie of any depth the suffixes are non-empty and led, so it meets the side condition of the main theorem |
| `PrefilterLimits.TrieWordsLead` | wasm/rxprefilter.go:591-656 | every word of a literal trie's language begins with one of the returned strings |
| `PrefilterShapes.TriesAreSafe` | wasm/rxprefilter.go:542-656 | a tree of any form in which every rebuilt concatenation has a literal trie, or an alternation of literal tries, as second child meets the trie condition of the main theorem |
| `PrefilterShapes.AnchoredLiteralsAreSafe` | wasm/rxprefilter.go:196-231 | a literal of two bytes or more directly behind a begin anchor, and one directly before an end anchor, meets the anchor condition whatever else the concatenation holds |
| `PrefilterShapes.PlainShapesAreSound` | wasm/rxprefilter.go:160-324 | a regex of these two shapes, in the parser's normal form, is never missed by its prefilter |
| `Prefilter.BeginAnchorPins` | wasm/rxprefilter.go:994-1006 | a regex with a detected begin anchor matches only from position 0 |
| `Prefilter.EndAnchorPins` | wasm/rxprefilter.go:1011-1023 | a regex with a detected end anchor matches only up to the end of the input |
| `Prefilter.AllPasses` | wasm/rxprefilter.go:196-231 | an input holding all required literals, with the anchored ones at their anchors, passes the all-of test after filtering and sorting |
| `PrefilterRejects.AllDecides` | wasm/rxprefilter.go:196-231 | the all-of test accepts exactly the inputs in which the first word is a prefix under a begin anchor, the last a suffix under an end anchor, and every other word is found; a word with non-ASCII bytes is not looked for when folding |
| `PrefilterRejects.AnyDecides` | wasm/rxprefilter.go:238-284 | there is an any-of test exactly for one word, or for at most 256 words that are all ASCII when folding, and it accepts exactly the inputs in which one is found |
| `Prefilter.OneOfPasses` | wasm/rxprefilter.go:238-284 | an input holding one of the alternatives passes the any-of test |
| `Prefilter.SortLongestPermutes` | wasm/rxprefilter.go:227-230 | the sorted needles are the same ones, as often, longest first |
| `PrefilterLimits.AnchoredGapExact` | wasm/rxprefilter.go:224-231 | for `\A`, a gap, a word: the prefilter never misses if and only if the gap is empty. A gap is any character or class, alone or with `*`, `+` or `?`, that can be an ASCII byte other than the word's first (`\A.*foo` and `\A\s*foo` are missed) |
| `PrefilterLimits.AnchoredEndGapExact` | wasm/rxprefilter.go:224-231 | for a word, a gap, `\z`: the prefilter never misses if and only if the gap is empty; the gap can be an ASCII byte other than the word's last |
| `PrefilterLimits.FactoredGapExact` | wasm/rxprefilter.go:542-582 | for `a(?:<gap>w|x)`, the shape of `s(?:.*leep&#124;elect)`: never misses if and only if the gap is empty or `w` already contains `ax`; the gap can be an ASCII byte that neither is `a` nor begins `w` or `x` |
| `PrefilterLimits.FoldNormalNeeded` | wasm/rxprefilter.go:350-407 | a folding literal that stored another member of its fold orbit than the parser does would make the prefilter reject a matching input |
| `PrefilterExact.ChoiceIsDecided` | wasm/rxprefilter.go:238-284 | for any list of up to 256 words of two bytes and more, the prefilter of their alternation accepts an input if and only if the regex matches it |
| `PrefilterExact.SharedIsDecided` | wasm/rxprefilter.go:542-582 | for any such list behind a factored common letter, the rebuilt words make the prefilter accept exactly what the regex matches |
| `PrefilterMinLen.MinLenIsExact` | wasm/rxprefilter.go:93-155 | the minimum length is attained: some match has exactly that many bytes. Trees with assertions, NoMatch, empty alternations, repeats whose maximum is below their minimum, literals of non-scalar values, or classes no single byte matches are excluded |
| `PrefilterMinLen.ShortestMatch` | wasm/rxprefilter.go:93-155 | for the same trees, it is attained by a text the regex matches wherever it stands |
| `PrefilterMinLen.ClassLengthIsExact` | wasm/rxprefilter.go:109-111 | of a character class the length 1 is attained if and only if the class has an ASCII member or U+FFFD |
| `WuManber.IndexedMatcher.constructor` | wasm/rxprefilter.go:771-823 | for every list of non-empty needles the shift table and buckets hold what the searcher relies on, `uint8` wrap of the distances included |
| `WuManber.IndexedMatcher.MatchCS` | wasm/rxprefilter.go:832-854 | true if and only if some needle occurs in the haystack; the scan ends |
| `WuManber.IndexedMatcher.MatchCI` | wasm/rxprefilter.go:856-883 | true if and only if some ASCII-folded needle occurs in the ASCII-folded haystack; the scan ends |
| `WuManber.IndexedMatcher.FillShift` | wasm/rxprefilter.go:801-814 | the table filled in place equals the least wrapped distance over every needle position that touches the byte |
| `WuManber.IndexedMatcher.JumpIsSafe` | wasm/rxprefilter.go:838-842 | a non-zero shift never jumps over the right edge of an occurrence |
| `WuManber.IndexedMatcher.NoCandidate` | wasm/rxprefilter.go:843-851 | a position where no bucket entry fits ends no occurrence |
| `WuManber.ShiftIsSafe` | wasm/rxprefilter.go:801-814 | the wrapped distance in the table is never more than the true distance modulo 256 of any needle byte |
| `WuManber.EqualFold` | wasm/rxprefilter.go:887-898 | true if and only if the ASCII-folded strings are equal, for an already lower-case second argument |
| `HostRx.ContainsFoldAsciiOnly` | wasm/rxprefilter.go:947-984 | the byte-jumping search finds an ASCII needle if and only if it occurs in the ASCII-folded text |
| `HostRx.ContainsNeedle` | wasm/rxprefilter.go:902-918 | the folding search agrees with the meaning of a needle, and answers "maybe" for a needle with non-ASCII bytes |
| `HostRx.FilterShortInPlace` | wasm/rxprefilter.go:725-734 | compacting in place leaves exactly the long strings in order at the front, and the rest of the slice as it was |
| `HostRx.Run` | wasm/rxprefilter.go:1051-1107 | running the composed closures gives the plan's meaning on every input |
| `HostRx.BuildWellFormed` | wasm/rxprefilter.go:160-324 | every plan the builder makes hands the searcher only non-empty needles, ASCII ones when folding, and needs at most one searcher |
| `Utf8.DecodedIsEncoded` | wasm/rxprefilter.go:93-110 | a rune other than U+FFFD is decoded only from its own encoding, of its own length |
| `Utf8.DecodesOrSkips` | wasm/rxprefilter.go:93-110 | where some rune's encoding stands it is decoded, and anywhere else one byte is taken as U+FFFD |
| `Utf8.EncodedDecodes` | wasm/rxprefilter.go:93-110 | decoding inverts encoding whatever follows |
| `PoolRuns.RunKeeps` | packages/core/src/pool.ts:264-281 | every state of every run (new transactions, calls, closes, worker steps, replies, rotations, drains, errors, exits) meets the invariant |
| `PoolRuns.StepKeeps` | packages/core/src/pool.ts:264-423 | one step of any kind keeps the invariant |
| `PoolRuns.PinnedIsNeverDropped` | packages/core/src/pool.ts:335-339 | while a handle is not closed its slot is serving or draining, never shut down, and a worker that did not crash still holds the transaction |
| `PoolRuns.ShutDownForGood` | packages/core/src/pool.ts:387-400 | from the shutdown message on a slot has no open handle and no client request, is not in the array, and no later step changes that |
| `PoolRuns.CallFindsItsTransaction` | packages/core/src/pool-worker.ts:89-111 | a call posted on an open handle never fails with "unknown tx", however late the worker gets to it |
| `PoolRuns.RepliesTellOutcomes` | packages/core/src/pool-worker.ts:64-175 | over all runs and for every kind of message: the reply is ok exactly when the wrapped call succeeds; a newTx makes a transaction no handle has had, a close takes its own away unless it traps, a shutdown all |
| `PoolRuns.NewTransactionsReachSlots` | packages/core/src/pool.ts:264-268 | new transactions go only to members of the array whose live workers are initialized |
| `PoolRuns.Conservation` | packages/core/src/pool.ts:498-506 | in every state, for each live worker: its transactions = busy + opened acks in flight - closed acks in flight + releases that trapped; and busy counts exactly the handles whose close has not been acknowledged |
| `PoolReleases.ConservationExact` | packages/core/src/pool-worker.ts:152-164 | over all runs the equation without the trap term holds at a live worker if and only if no `tx.close()` that skips the `delete` has happened there since its last shutdown message |
| `PoolReleases.CounterIsHistory` | packages/core/src/pool-worker.ts:152-164 | over all runs the trap term is the number of such releases in the run's events |
| `PoolReleases.ConservationFails` | packages/core/src/pool-worker.ts:152-164 | a run of five events from one idle worker after which the equation without the trap term is false |
| `PoolRuns.Structure` | packages/core/src/pool.ts:341-411 | over all runs the array keeps its length, its members are distinct and not draining, and a worker has at most one replacement being prepared |
| `PoolRuns.RequestsSettleOnce` | packages/core/src/pool.ts:652-658 | an issued request is either settled or pending in exactly one slot, and a settled one stays settled |
| `PoolRuns.CrashRejectsPending` | packages/core/src/pool.ts:631-647 | every request pending when a worker dies, of an error or by an exit alone, is settled in that step |
| `PoolRuns.SwapInPlace` | packages/core/src/pool.ts:366-376 | a ready replacement always finds the old worker in the array and replaces that entry only; handles and workers are untouched |
| `PoolLatch.LatchMeansReplacement` | packages/core/src/pool.ts:341-376 | over all runs an active worker is latched if and only if a replacement has been spawned for it and neither taken its place nor failed, and there is exactly one |
| `PoolBalance.SpawnsBalanceFailures` | packages/core/src/pool.ts:270-361 | over all runs the replacements ever spawned for a slot are exactly those that failed, and one more while the slot is latched |
| `PoolBalance.ReleasedByFailure` | packages/core/src/pool.ts:349-361 | a step releases a latch if and only if the replacement on its way fails in it |
| `PoolBalance.BootingEndings` | packages/core/src/pool.ts:614-647 | a replacement that errs before it is online releases the old worker's latch; one that exits without an error event leaves it set, because nothing settles `ready` |
| `PoolBalance.HungForever` | packages/core/src/pool.ts:342-348 | after such an exit the old worker is active and latched in every later state of the run, and no replacement is ever spawned for it again |
| `PoolRotation.CountersAreExact` | packages/core/src/pool.ts:266-279 | over all runs a slot's `requests` is the number of transactions ever dispatched to it, and its latch is set only once that number has reached the threshold |
| `PoolRuns.RunForward` | packages/core/src/pool.ts:341-411 | slots never go back from a later life phase to an earlier one, handles keep their slot and transaction, closed handles stay closed |
| `PoolRuns.CrashKeeps` | packages/core/src/pool.ts:614-634 | a death by error with all its rejections, and a failed rotation if it was a replacement not online yet, keeps the invariant |
| `PoolRuns.ExitKeeps` | packages/core/src/pool.ts:636-647 | a death by exit alone with all its rejections keeps the invariant |
| `PoolInvariant.SwapKeeps` | packages/core/src/pool.ts:366-371 | swapping a replacement in keeps the invariant |
| `PoolInvariant.FailKeeps` | packages/core/src/pool.ts:349-361 | a replacement that fails to initialize leaves the old worker serving and free to rotate again |
| `PoolInvariant.OpenReplyKeeps` | packages/core/src/pool.ts:268-280 | an acknowledged transaction, with the rotation it may start, keeps the invariant |
| `PoolInvariant.CloseReplyKeeps` | packages/core/src/pool.ts:498-506 | when a close is acknowledged busy is above zero, so the clamp at zero never bites, and the invariant is kept |
| `PoolInvariant.DrainDoneKeeps` | packages/core/src/pool.ts:414-423 | shutting down a slot found idle keeps the invariant |
| `PoolInvariant.WorkerKeeps` | packages/core/src/pool-worker.ts:64-175 | a worker handling its next message keeps the invariant, however the wrapped call ends |
| `PoolDispatch.PickIsLeastBusy` | packages/core/src/pool.ts:316-327 | the picked slot has minimum busy, and the round-robin candidate wins whenever it is among the least busy |
| `PoolDispatch.EachSlotExactlyOnce` | packages/core/src/pool.ts:226-254 | with equal busy counts, n picks without a reply in between reach each of the n slots exactly once: so does the prewarm |
| `WafPool.WAFPool.constructor` | packages/core/src/pool.ts:121-136 | a pool as `create` makes it before prewarming |
| `WafPool.WAFPool.ChooseSlot` | packages/core/src/pool.ts:316-327 | the loop returns the slot the dispatch results are about and advances the round-robin counter |
| `WafPool.WAFPool.CallSlot` | packages/core/src/pool.ts:652-658 | a fresh id, one more pending entry, nothing else |
| `WafPool.WAFPool.NewTransaction` | packages/core/src/pool.ts:264-268 | the state becomes the model's, the invariant is kept |
| `WafPool.WAFPool.UseHandle` | packages/core/src/pool.ts:523-545 | the state becomes the model's, the invariant is kept |
| `WafPool.WAFPool.Close` | packages/core/src/pool.ts:498-503 | a second close does nothing; the first marks the handle and posts one request |
| `WafPool.WAFPool.OnMessage` | packages/core/src/pool.ts:620-629 | an unknown id changes nothing; a known one is settled and its continuation runs; the invariant is kept |
| `WafPool.WAFPool.TransactionOpened` | packages/core/src/pool.ts:269-280 | counts the transaction, latches and spawns a replacement exactly when the threshold is reached, appends the handle |
| `WafPool.WAFPool.SwapIn` | packages/core/src/pool.ts:363-385 | swap at the old index, or stop the fresh worker when the old one is gone; the pool is not destroyed |
| `WafPool.WAFPool.OnOnline` | packages/core/src/pool.ts:345-348 | a replacement that comes online is sent its init; the invariant is kept |
| `WafPool.WAFPool.PollDrain` | packages/core/src/pool.ts:414-423 | shutdown is posted exactly when busy is zero and nothing is pending; the invariant is kept |
| `WafPool.PoolWorker.OnMessage` | packages/core/src/pool-worker.ts:64-175 | the handler's new state and reply for every message and every way the wrapped call can end |
| `WasmModule.PatchGrows` | packages/core/src/wasmPatch.ts:48-129 | patching a well-formed module writes exactly the bytes of the module with its minimum raised: flags, maximum and every other byte as before; a minimum already large enough gives the same bytes |
| `WasmModule.PatchedReadsBack` | packages/core/src/wasmPatch.ts:20-41 | reading the patched module gives the larger of the old minimum and the requested pages |
| `WasmModule.PatchesJoin` | packages/core/src/wasmPatch.ts:48-129 | patching with p and then q equals patching with the larger of them; with p = q, patching is idempotent |
| `WasmModule.GrownIsModule` | packages/core/src/wasmPatch.ts:92-128 | the patched module is well-formed again, header, sections in front and bytes behind unchanged |
| `WasmModule.NoMemoryNoChange` | packages/core/src/wasmPatch.ts:70-72 | a module without a section of id 5 is returned as it is and has no pages to read |
| `WasmModule.OtherBytesAreRefused` | packages/core/src/wasmPatch.ts:52-55 | bytes without the magic number are refused, and have no pages to read |
| `WasmModule.SeveralMemoriesAreKept` | packages/core/src/wasmPatch.ts:80-82 | a memory section that does not hold exactly one memory is left as it is, whatever follows its count |
| `WasmModule.LongSizesThrow` | packages/core/src/wasmPatch.ts:157-160 | a section whose size goes on for six bytes makes both functions throw |
| `WasmModule.FindsMemory` | packages/core/src/wasmPatch.ts:57-69 | walking over sections with any valid, possibly padded, size field reaches the section with id 5 |
| `WasmModule.FindsIdAgain` | packages/core/src/wasmPatch.ts:131-147 | the second walk always finds the id byte the first one found, for any bytes at all: the -1 branch is never taken |
| `WasmPatch.PatchInitialMemory` | packages/core/src/wasmPatch.ts:48-72 | the loop computes the specification on every byte string, errors included, and ends |
| `WasmPatch.PatchMemorySection` | packages/core/src/wasmPatch.ts:74-129 | the spliced buffer, or the exception, on every byte string |
| `WasmPatch.ReadInitialMemoryPages` | packages/core/src/wasmPatch.ts:20-41 | the loop computes the specification on every byte string and ends |
| `WasmPatch.FindSectionIdIndex` | packages/core/src/wasmPatch.ts:131-147 | the loop computes the specification on every byte string and ends |
| `WasmPatch.BuildContent` | packages/core/src/wasmPatch.ts:92-107 | the in-place writes leave count, flags, the new minimum and the old maximum in the buffer |
| `Uleb.ReadsWritten` | packages/core/src/wasmPatch.ts:149-174 | `readULEB` inverts `writeULEB` for every u32, at any offset, with any bytes around |
| `Uleb.ReadsValue` | packages/core/src/wasmPatch.ts:149-162 | any well-formed u32, padded or not, is read as its value, in spite of 32-bit shifts and signed or |
| `Uleb.WrittenIsU32` | packages/core/src/wasmPatch.ts:164-174 | what is written is a well-formed number of at most five bytes denoting the value |
| `Uleb.WrittenIsShortest` | packages/core/src/wasmPatch.ts:164-174 | no encoding of the same value is shorter |
| `Uleb.FailsOnLongNumbers` | packages/core/src/wasmPatch.ts:157-160 | the reader throws if and only if six bytes in a row ask for another one |
| `Uleb.SixthByteLandsLow` | packages/core/src/wasmPatch.ts:156-159 | a sixth byte, which no u32 has, is read as bits 3 to 9 because the shift count wraps |
| `Uleb.ReadULEB` | packages/core/src/wasmPatch.ts:149-162 | the loop computes the specification for any buffer and offset, past its end too, and ends |
| `Uleb.WriteULEB` | packages/core/src/wasmPatch.ts:164-174 | the loop computes the shortest encoding of the value modulo 2^32 |
| `Headers.ParsesEncoded` | wasm/encoding.go:18-47 | parsing an encoded header list gives it back, whatever bytes follow |
| `Headers.ParsedIsEncoded` | wasm/encoding.go:18-47 | the format is canonical: any accepted packet begins with the encoding of the headers parsed from it |
| `Headers.NoPacketInsideAnother` | wasm/encoding.go:51-70 | no encoded list is a proper prefix of another |
| `Headers.CutPacketsAreRefused` | wasm/encoding.go:25-42 | an encoded list cut short at any byte is refused |
| `Headers.CutPacketsDeliver` | wasm/encoding.go:24-45 | of a packet cut short at any byte exactly the headers that are there in whole are delivered before the error |
| `Headers.SliceOutcome` | wasm/encoding.go:30-33 | a slice is given when it lies in the packet, refused when it ends behind it, and panics when its end wraps around 32 bits |
| `Headers.PacketLayout` | wasm/encoding.go:57-67 | the packet byte by byte: the count, then each name and value behind its length, low byte first |
| `Headers.ParseHeaderPacket` | wasm/encoding.go:18-47 | the loop computes the specification, with the headers delivered before an error, on every packet shorter than 2^31 |
| `Headers.EncodeHeaderPacket` | wasm/encoding.go:51-70 | the two passes size and fill the buffer with exactly the packet |
| `Headers.FillPacket` | packages/core/src/abi.ts:179-192 | the fill loop shared by both encoders writes the packet at the start of the buffer |
| `Bundle.DecodesEncoded` | wasm/bundle.go:75-93 | decoding an encoded bundle gives every field back, whatever bytes follow |
| `Bundle.DecodedIsEncoded` | wasm/bundle.go:75-93 | the format is canonical: any accepted bundle begins with the encoding of the fields decoded from it |
| `Bundle.CutBundlesAreRefused` | wasm/bundle.go:91-93 | an encoded bundle cut short at any byte is refused |
| `Bundle.BundleLayout` | packages/core/src/transaction.ts:355-368 | the bundle byte by byte: order and width of every field, low byte first |
| `Bundle.TakeOutcome` | wasm/bundle.go:66-73 | a blob is given when it lies in the packet and refused when it ends behind it; a length or an end that is negative as an int32 panics |
| `Bundle.DecodeBundle` | wasm/bundle.go:39-93 | the cursor closures compute the specification on every packet shorter than 2^31 |
| `Bundle.PacketReader.ReadBlob` | wasm/bundle.go:66-73 | bounds check and slice in 32-bit arithmetic: bytes and new offset, a refusal, or a panic |
| `RequestBundle.ArrivesAsSent` | packages/core/src/transaction.ts:300-371 | for every request whose bundle fits the int32 length, the Go side decodes the method, protocol (`HTTP/1.1` if absent) and address clipped between characters, the client's and the server's port modulo 2^16, the whole URL, the header list in order, and the body |
| `RequestBundle.ArrivesInWholeCharacters` | packages/core/src/transaction.ts:273-281 | the clipped method, protocol and address are the longest runs of whole leading characters within their limits |
| `RequestBundle.BundleEncoder.EncodeRequestBundle` | packages/core/src/transaction.ts:300-371 | the buffer written through the moving offset holds exactly the bundle, from which the Go side decodes what the request says |
| `RequestBundle.BundleEncoder.LayOut` | packages/core/src/transaction.ts:315-329 | the four strings lie in disjoint ranges of the scratch buffer and still show their own bytes when the last one is written |
| `RequestBundle.BundleEncoder.WriteScratch` | packages/core/src/transaction.ts:285-293 | the piece shows the UTF-8 of the string, and no piece in front of the offset changes |
| `RequestBundle.EncodeHeaders` | packages/core/src/abi.ts:157-193 | the packet is written into the caller's buffer if it is long enough, else into a fresh one the caller keeps |
| `JsText.ClipsBetweenCharacters` | packages/core/src/transaction.ts:273-281 | on UTF-8 text the truncation keeps exactly the characters that fit |
| `JsText.FittingIsMost` | packages/core/src/transaction.ts:268-281 | those characters fit, and one more would not |
| `JsText.ClipsLittle` | packages/core/src/transaction.ts:276-279 | at most three bytes of room are given up |
| `JsText.CodePointsSpell` | packages/core/src/transaction.ts:285-293 | the code points spell the string's code units, and no two neighbours are the halves of a pair |
| `JsText.DecodesText` | packages/core/src/transaction.ts:285-293 | read rune by rune in Go, the text is those code points, U+FFFD for half a pair |
| `JsText.TruncateUtf8` | packages/core/src/transaction.ts:273-281 | the loop steps back over continuation bytes only |
| `JsText.Utf8AtMost` | packages/core/src/transaction.ts:286-287 | four bytes a code unit are always enough, so the scratch check is safe |
| `HostRegex.MatchAnswersForItsPattern` | packages/core/src/hostRegex.ts:49-95 | after any operations a match answers as the RegExp its own pattern translates to, from the compile that returned the handle until it is freed, and false on every other handle |
| `HostRegex.CompileAnswers` | packages/core/src/hostRegex.ts:49-66 | a compile answers 0 exactly when the pattern has no translation or the engine rejects it |
| `HostRegex.MatchIsTest` | packages/core/src/hostRegex.ts:68-95 | after any sequence of compile, match and free, a match answers as the RegExp itself would on a live handle, and false on any other |
| `HostRegex.MemoIsRecency` | packages/core/src/hostRegex.ts:68-95 | after any sequence, a live handle's memo is exactly its up to eight most recently asked distinct inputs, latest first |
| `HostRegex.HandlesAreNotReused` | packages/core/src/hostRegex.ts:55-66 | two successful compiles never return the same handle |
| `HostRegex.FreedStaysDead` | packages/core/src/hostRegex.ts:97-100 | a freed handle stays dead whatever comes after |
| `HostRegex.TranslatesFlags` | packages/core/src/hostRegex.ts:116-143 | a pattern is rejected exactly when its leading flag block has a letter other than s, m, i, u; else each flag is kept once and block plus source is the pattern |
| `HostRegex.HostRegex.MatchInput` | packages/core/src/hostRegex.ts:68-95 | the scan, move-to-front, unshift and truncation compute the specified memo and answer |
| `HostRegex.HostRegex.CompilePattern` | packages/core/src/hostRegex.ts:49-66 | a handle and one more pattern, or 0 and one more rejection |
| `HostRegex.HostRegex.FreeHandle` | packages/core/src/hostRegex.ts:97-100 | pattern and memo go, nothing else changes |
| `HostRegex.TranslatePattern` | packages/core/src/hostRegex.ts:116-143 | the flag loop computes the specification |
| `Ignore.AcceptsPrefixes` | packages/core/src/ignore.ts:134-146 | the source text a glob is compiled to, read back as a regular expression anchored at the start, accepts a path if and only if some prefix of it is in the glob's language |
| `Ignore.ReadsBody` | packages/core/src/ignore.ts:136-143 | escaping is right: the source reads back as one term for each character of the glob |
| `Ignore.LegacyPrefixKept` | packages/core/src/skip.ts:93-100 | a translated legacy prefix means `startsWith` for every path if and only if it holds no `*` and no `?` |
| `Ignore.CompileRoute` | packages/core/src/ignore.ts:134-146 | the loop computes the source |
| `Ignore.ExtensionMatches` | packages/core/src/ignore.ts:148-165 | true if and only if the last path segment, in lower case, ends in a dot and one of the extensions |
| `Ignore.HeaderGet` | packages/core/src/ignore.ts:168-184 | the first header whose name is the given one, both in lower case |
| `Ignore.Matcher` | packages/core/src/ignore.ts:190-265 | over the specification and the request: a predicate that throws or says inspect gives inspect, one that says skip-body gives skip-body; one that says skip, or none, leaves the declared verdict, and where nothing is declared gives skip, or inspect without a predicate |
| `Ignore.DeclaredMeans` | packages/core/src/ignore.ts:190-245 | declared is skip if and only if a method, extension or route of the specification takes the request, or all its header rules do, or the defaults are on and skip it; else skip-body above the cutoff |
| `Ignore.LegacyListKept` | packages/core/src/skip.ts:90-110 | with the defaults off, a translated list of prefixes without wildcards skips exactly the paths that start with one of them |
| `Json.ReadsWritten` | wasm/encoding.go:82-106 | a JSON reader that refuses raw control bytes gives every written byte string back |
| `Json.WritesEveryIntButTheLeast` | wasm/encoding.go:115-131 | every int64 is written as the JSON number it is, if and only if it is not the least one, which comes out as a bare minus |
| `Json.ReadsPair` | wasm/encoding.go:82-106 | the written pair reads back as a member of that key and value |
| `Json.WriteKVS` | wasm/encoding.go:82-106 | the loop appends exactly the key and the escaped value |
| `Json.FillDigits` | wasm/encoding.go:123-130 | the digits are filled backwards without running out of the 20 bytes |
| `Json.WriteInt` | wasm/encoding.go:115-131 | the text appended for every int64 |

## Left out

- Prefilter.PrefilterSound: one direction only, under the syntactic conditions of `Admissible`; whether the test is safe for an arbitrary other tree depends on the languages of its parts, so the exact condition is given for the families that break it (`AnchoredGapExact`, `AnchoredEndGapExact`, `FactoredGapExact`).
- Go's regular expression parser and simplifier, which produce the trees taken as input here; patterns that do not parse have no prefilter and are covered by the operator's constructor.
- Differences between V8's and Go's regular expressions, and the capture groups `Evaluate` records after a match.
- The Unicode case tables: a `CaseTable` gives orbit representative and lower-case form, of which only the ASCII part and the two ASCII letters with other orbit members are fixed, and, where the exact answer of the test is given, that lower-casing leaves no ASCII capital.
- HostRx.ContainsNeedle: needles with non-ASCII bytes are answered "maybe" in folding mode, as the code does; lower-casing of non-ASCII text is not modelled.
- WuManber.IndexedMatcher.MatchCI: needles are ASCII, as the only caller guarantees.
- `extractExactMatch`, which nothing calls.
- Object references in the pool are ids here: a slot, a handle and a request are named by number, and ports are the stages of a pending request, handled in posting order.
- PoolRuns.CrashRejectsPending: a reply still on its way when a worker dies is lost, so a message arriving after the exit event is not modelled.
- WafPool.WAFPool.SwapIn: without the `#destroyed` test, as `destroy()` is not part of the model.
- `destroy()`, `readyTimeoutMs`, the 5 ms polling interval, logging, and that a rotation ever completes: only safety is proved. Clients do not use a handle after closing it.
- WafPool.WAFPool.OnMessage: the model runs the awaited continuation in the same step as the reply, as one turn of the event loop does; in the object a rejected request is a message with `ok` false.
- The pool's `get` requests are calls on the handle like any other.
- Memory limits of typed arrays and of the scratch buffer's allocation; a size field of several gigabytes is read but no allocation failure is modelled.
- WasmPatch.PatchInitialMemory: the returned bytes are a value, so that an unpatched result is the very same array is not captured; page counts are integers.
- Headers.ParseHeaderPacket: for packets shorter than 2^31 bytes, as the int32 length of the ABI allows.
- Bundle.DecodeBundle: stops before the calls into Coraza that follow decoding; the transaction registry and error strings are not modelled.
- RequestBundle.ArrivesAsSent: for bundles shorter than 2^31 bytes, the length field of the export; a port is an integer.
- `Transaction`'s other methods and the allocation and copying in and out of WebAssembly memory.
- HostRegex.MatchIsTest: the RegExp is a function of source, flags and input, which it is with `lastIndex` reset.
- Ignore.Matcher: the case mappings and a regular expression route's test are parameters, a `Headers` object is looked up like a map, a body cutoff is an integer, and the match predicate enters by how it ends.
- Ignore.AcceptsPrefixes: characters are UTF-16 code units, as in a pattern without the `u` flag.
- The framework adapters, module loading, WASI and the host functions' pointer handling.
