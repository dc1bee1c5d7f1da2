# x07 WASM toolchain: a verified model

This project models the parts of the x07 WASM toolchain where a mistake would be silent:
the glue code it writes into WebAssembly modules, the memory protocol between host and
guest, the hand-written JSON of the HTTP adapters, recorded capability evidence, the HTTP
reducer's effect loop and its traces, and a few strict decoders and libc shims. `dafny
verify dfyconfig.toml` checks everything.

How the files fit together:

- `Words`, `Allocator` — 32-bit words, rounding up, the bump allocator over whole runs.
- `WasmMachine`, `WasmExtend` — a small WebAssembly machine with structured control, and
  the fact that adding to a program changes nothing for what was there.
- `EmittedRealloc`, `EmittedSolve`, `WasmInject`, `SolveProtocol` — the two emitted
  functions run on that machine against their C counterparts, the section rewriting, and
  the injected module as a host drives it.
- `InputStream`, `StdinBuffer`, `NativeCli`, `HostLayout` — streams read in chunks within a
  limit, the growable buffer that collects them, the C glue of the native command line,
  and the host's own layout and checks in 64-bit arithmetic.
- `JsonText`, `JsonScan`, `JsonMembers`, `Envelopes`, `EnvelopeOrder`, `EnvelopeSpans`, `EnvelopeFields`,
  `StateDoc`, `StateTurns`, `StateAnswers` — what the adapters' parsers and printers
  compute, as functions on the remaining bytes, with their round trips and with what they
  accept; `JsonCursor` and `AdapterCode` — the cursor and the pushing code, proved equal to
  those functions. A parser's panic is `None`.
- `Evidence`, `EvidenceRuns` — the evidence context, its clocks and generators, and whole
  runs of recorded and replayed guests.
- `KeyOrder`, `CanonJson`, `HttpEffects`, `HttpReducer`, `TraceReplay` — canonical JSON, the
  effects, the bounded loop and the trace replayer.
- `Base64`, `StderrDiag`, `WitDeps`, `FreestandingLibc` — strict Base64, the diagnostic
  lines on standard error, the WIT dependency walk, and the libc shims.

Reading notes:

- WebAssembly runs take `fuel`, which bounds loop iterations and call depth. Every
  statement is for all fuel; a finished run has one result however much it is given.
- i32 additions wrap in the emitted code and in C on wasm32. Where a property needs sums
  below 2^32 the hypothesis is written out, and a lemma shows what happens without it
  (`WrapLosesTheHeap`, `EscapingReports`, `WrapperAcceptsMore`, `FullMemoryLosesInput`,
  `LowHeapLosesInput`).
- The emitted wrapper traps on input lengths of 2^31 and above, which the C template does
  not; the model follows each.
- `canon_value_jcs` sorts by UTF-8 bytes, not by the UTF-16 units of section 3.2.3 of
  RFC 8785. Objects are modelled as insertion-ordered maps; with a map that is always
  sorted by key the same statements hold.
- For the emitted copy loop, the allocator's C form and the native glue one specification
  (`Allocator.Realloc`) is used, so the emitted and the compiled code are compared through it.

## Model

| member | source | states |
|---|---|---|
| Words.AlignUpMeaning | crates/x07-wasm/src/support/component/solve_bindgen_c_template.c:31-35 | for a power of two and a sum below 2^32, masking gives the least multiple of the alignment not below the address |
| Allocator.CopyWritesTarget | crates/x07-wasm/src/support/component/solve_bindgen_c_template.c:53-58 | a copy whose sums do not wrap traps exactly when it leaves memory, and otherwise changes nothing outside its target |
| Allocator.CopyMovesBytes | crates/x07-wasm/src/support/component/solve_bindgen_c_template.c:53-58 | a copy between disjoint places in memory leaves the source bytes in the target |
| Allocator.AllocStep | crates/x07-wasm/src/support/component/solve_bindgen_c_template.c:42-61 | one request in a good layout traps exactly when its copy leaves memory; otherwise the block is aligned, at or above every earlier block, starts with the first min(old, new) bytes of the old block, and nothing else changes |
| Allocator.BlockAdded | crates/x07-wasm/src/support/component/solve_bindgen_c_template.c:42-61 | the block of a step keeps all blocks disjoint and at or above the heap base, moves the heap pointer up, and leaves the bytes of older blocks alone |
| Allocator.AllocatorRuns | crates/x07-wasm/src/component/build.rs:1855-1954 | any run of non-empty, power-of-two-aligned requests whose sums stay below 2^32 keeps every earlier block in place with its bytes, adds one aligned block per request, keeps all blocks disjoint, and never lowers the heap pointer |
| Allocator.WrapLosesTheHeap | crates/x07-wasm/src/component/build.rs:1855-1900 | the bound on the sums is needed, for every heap and size: a request whose sum wraps succeeds and moves the heap pointer back, and the next block overlaps the one just given exactly when it ends above its start |
| WasmExtend.ExtendedInvoke | crates/x07-wasm/src/component/build.rs:1599-1758 | for every program and every extension of it by types, functions and globals, a function of the original gives the same results, memory, own globals or trap under every amount of fuel, and leaves the added globals as they were |
| WasmMachine.TeeIsSetAndGet | crates/x07-wasm/src/component/build.rs:1599-1758 | on the machine, `local.tee` is `local.set` and then `local.get` |
| WasmMachine.BlockGivesItsResult | crates/x07-wasm/src/component/build.rs:1599-1758 | branching out of a block or falling out of it leaves its results over what lay below |
| WasmMachine.TableByCases | crates/x07-wasm/src/component/build.rs:1599-1758 | a branch table takes the branch at its operand, or its default |
| EmittedRealloc.RunCopyLoop | crates/x07-wasm/src/component/build.rs:1917-1950 | the emitted copy loop performs exactly the byte copy and ends within n - i iterations, or traps exactly when the copy leaves memory |
| EmittedRealloc.EmittedReallocRefines | crates/x07-wasm/src/component/build.rs:1820-1957 | running the emitted `cabi_realloc` on the machine gives the same pointer, heap pointer and memory as the C function, or traps exactly when it does, for all arguments, memories and globals under wrapping arithmetic |
| EmittedRealloc.EmittedReallocAnyFuel | crates/x07-wasm/src/component/build.rs:1820-1957 | with any fuel the emitted function gives that one result or runs out; fuel equal to the bytes copied always suffices |
| EmittedSolve.EmittedSolveRefines | crates/x07-wasm/src/component/build.rs:1965-2093 | running the emitted wrapper: negative lengths trap, the two areas are allocated once, the solver is called on them, and the return area is handed back exactly when the reported bytes pass the limit and arena tests |
| WasmInject.CollectPayloads | crates/x07-wasm/src/component/build.rs:1491-1575 | gathers exactly what the payloads carry, kind by kind and in order, with the last data count; refuses exactly when a payload is unsupported, with the reason of the first |
| WasmInject.InjectionOfPayloads | crates/x07-wasm/src/component/build.rs:1491-1785 | the types, functions, globals, exports and bodies of the output are all those the payloads carry with three more behind them, and memories, data, custom sections and data count are exactly theirs; the first unsupported payload is refused |
| WasmInject.RewriteIff | crates/x07-wasm/src/component/build.rs:1576-1785 | a collected module is accepted exactly when its code matches its functions, the two named exports are there, sizes fit, no reference type, 64-bit memory, bad initialiser or reserved name occurs, and the result validates |
| WasmInject.LastExportIff | crates/x07-wasm/src/component/build.rs:1583-1597 | an export found is the last one of that name and kind |
| WasmInject.FindExports | crates/x07-wasm/src/component/build.rs:1583-1597 | finds the last function export named `x07_solve_v2` and the last global export named `__heap_base` |
| WasmInject.EncodeGlobals | crates/x07-wasm/src/component/build.rs:1676-1686 | re-encodes every global or gives the first reason one cannot be |
| WasmInject.InjectSolveHandlerLegacyAbi | crates/x07-wasm/src/component/build.rs:1491-1785 | the section-by-section rewriting gives the input module with three types, functions, globals, exports and bodies appended at the intended indices, or the first error in the order of the code |
| WasmInject.InjectionPreservesMeaning | crates/x07-wasm/src/component/build.rs:1599-1785 | every original function, from any arguments, memory and globals, behaves in the injected module as in the input, and the three injected globals keep their values |
| WasmInject.InjectionKeepsModule | crates/x07-wasm/src/component/build.rs:1599-1785 | memories, data, custom sections and existing exports and globals are carried over, and the three new globals are mutable 32-bit words that start at zero |
| WasmInject.InjectionExports | crates/x07-wasm/src/component/build.rs:1599-1745 | `cabi_realloc`, the post-return and the solve export resolve to functions of type (i32 i32 i32 i32) to i32, (i32) to nothing and (i32 i32) to i32; every export index is in range, and all export names are distinct |
| WasmInject.InjectionWires | crates/x07-wasm/src/component/build.rs:1599-1758 | the injected bodies are the emitted allocator and wrapper, wired to the original solver, heap base and the three new globals |
| SolveProtocol.ReallocOnInstance | crates/x07-wasm/src/component/build.rs:1820-1957 | on an instance of any injected module `cabi_realloc` changes only memory and the heap pointer, as the allocator says |
| SolveProtocol.PostOnInstance | crates/x07-wasm/src/component/build.rs:1959-1963 | the post-return export changes nothing |
| SolveProtocol.SolveOnInstance | crates/x07-wasm/src/component/build.rs:1965-2093 | the wrapper runs the input module's own solver, which cannot reach the injected globals, and then checks its report |
| SolveProtocol.ProtocolStep | crates/x07-wasm/src/component/build.rs:1965-2093 | every returning call keeps the layout invariant, keeps the areas where they are and leaves the host's blocks unchanged; a returning solve hands back the return area with a length within the output limit, and its report lies inside the arena whenever the sum of pointer and length stays below 2^32 |
| SolveProtocol.ProtocolRuns | crates/x07-wasm/src/component/build.rs:1965-2093 | from any state with the invariant, over any interleaving of realloc, solve and post calls whose sums stay below 2^32: the invariant holds in every state of the run, the areas are allocated at most once and never move, blocks stay disjoint, and each solve reports within the limit and, when its sum stays below 2^32, inside the arena |
| SolveProtocol.FreshInstance | crates/x07-wasm/src/component/build.rs:1687-1712 | the invariant holds when the module has just been instantiated |
| SolveProtocol.AreasApart | crates/x07-wasm/src/component/build.rs:1990-2030 | in a reachable state the return area and the arena are disjoint from each other and from every block given to the host |
| SolveProtocol.AreasAligned | crates/x07-wasm/src/component/build.rs:1990-2030 | freshly allocated areas are aligned to 4 and 8 bytes, and existing ones stay |
| SolveProtocol.AcceptsIsContainment | crates/x07-wasm/src/component/build.rs:2052-2086 | when neither sum reaches 2^32 the emitted test is exactly containment in the arena and the length limit |
| SolveProtocol.WrappedReportAccepted | crates/x07-wasm/src/component/build.rs:2062-2086 | without that bound it is not: for every arena and capacity and every non-zero limit the test accepts a report that ends past the arena |
| SolveProtocol.EscapingReports | crates/x07-wasm/src/component/build.rs:2052-2086 | the wrapper of any injected module hands back a report that is not inside the arena exactly when its sum passes 2^32, wraps to at most the arena end, starts at or above the arena and keeps the limit |
| InputStream.ReceivedIsItsChunks | crates/x07-wasm/src/support/component/cli_command_bindgen_c_template.c:183-209 | a stream read in chunks within a limit, here and in the adapters, is refused exactly when its chunks pass the limit, fails exactly when the read after them does, and is otherwise their concatenation |
| StdinBuffer.CapacityFits | crates/x07-wasm/src/support/component/cli_command_bindgen_c_template.c:98-106 | the grown capacity fits, is a doubling of the first capacity or the need itself, is at least twice the old one while that fits 32 bits, and is less than twice the need unless it is the first 4096 |
| StdinBuffer.EndsAsReceived | crates/x07-wasm/src/support/component/cli_command_bindgen_c_template.c:183-209 | whatever the memory, a read loop that does not trap ends as the stream and the budget say, with a buffer as long as the bytes read |
| StdinBuffer.BufferHoldsInput | crates/x07-wasm/src/support/component/cli_command_bindgen_c_template.c:94-209 | in every memory short of the full 4 GiB, for every stream, chunking and budget, the buffer then holds exactly the bytes read, through every regrowth |
| StdinBuffer.FullMemoryLosesInput | crates/x07-wasm/src/support/component/cli_command_bindgen_c_template.c:94-209 | in a full 4 GiB memory it does not: every first chunk longer than half the room above the heap is lost |
| StdinBuffer.ReadsAnythingIff | crates/x07-wasm/src/support/component/cli_command_bindgen_c_template.c:94-209 | with a budget of 2 GiB or more, the buffer holds the input of every stream exactly when the memory is not the full 4 GiB |
| StdinBuffer.LowHeapLosesInput | crates/x07-wasm/src/support/component/cli_command_bindgen_c_template.c:54-61 | the heap has to start at or above its base: below it, a buffer that ends exactly at 2^32 sends the heap back into itself and the next chunk overwrites it |
| StdinBuffer.LowHeapExample | crates/x07-wasm/src/support/component/cli_command_bindgen_c_template.c:54-61 | such inputs exist in a memory one page short of 4 GiB |
| StdinBuffer.ReadsWithoutTrap | crates/x07-wasm/src/support/component/cli_command_bindgen_c_template.c:94-209 | with memory above the heap for five budgets, 8192 bytes and one more chunk, the read loop cannot trap |
| NativeCli.NativeGlue.CopyBytes | crates/x07-wasm/src/support/component/cli_command_bindgen_c_template.c:64-71 | the byte loop performs the copy of the specification or traps with it |
| NativeCli.NativeGlue.CabiRealloc | crates/x07-wasm/src/support/component/cli_command_bindgen_c_template.c:54-74 | the C allocator does what the allocator's specification says to pointer, heap pointer and memory |
| NativeCli.NativeGlue.PrepareArena | crates/x07-wasm/src/support/component/cli_command_bindgen_c_template.c:164-169 | the arena is allocated exactly once and then kept |
| NativeCli.NativeGlue.Solve | crates/x07-wasm/src/support/component/solve_bindgen_c_template.c:70-97 | the solve template returns the solver's report exactly when it passes the limit and arena tests, and otherwise traps |
| NativeCli.NativeGlue.GrownCap | crates/x07-wasm/src/support/component/cli_command_bindgen_c_template.c:98-102 | the doubling loop computes the capacity that CapacityFits describes |
| NativeCli.NativeGlue.BufReserve | crates/x07-wasm/src/support/component/cli_command_bindgen_c_template.c:94-107 | computes the reservation of the specification in buffer, heap pointer and memory, or traps exactly when it does |
| NativeCli.NativeGlue.AppendBytes | crates/x07-wasm/src/support/component/cli_command_bindgen_c_template.c:111-113 | the byte loop performs the copy of the specification to the end of the buffer, with wrapping addresses, or traps with it |
| NativeCli.NativeGlue.BufPushBytes | crates/x07-wasm/src/support/component/cli_command_bindgen_c_template.c:109-115 | reserving and appending give the buffer, heap and memory of the specification that BufferHoldsInput is about, or trap exactly when it does |
| NativeCli.NativeGlue.WriteLimited | crates/x07-wasm/src/support/component/cli_command_bindgen_c_template.c:117-140 | a write within the budget delivers exactly the bytes in memory and adds to the count; over the budget nothing is counted |
| NativeCli.NativeGlue.WriteStderrDiag | crates/x07-wasm/src/support/component/cli_command_bindgen_c_template.c:144-161 | never writes more than the budget, and on a working stream with room writes exactly the one diagnostic line |
| NativeCli.NativeGlue.WriteStdout | crates/x07-wasm/src/support/component/cli_command_bindgen_c_template.c:243-256 | the whole output is delivered in order, or the stream failed: the per-write budget guard never fires |
| NativeCli.NativeGlue.LowerChunk | crates/x07-wasm/src/support/component/cli_command_bindgen_c_template.c:185-206 | the host allocates the chunk through the C allocator and writes it there, or traps |
| NativeCli.NativeGlue.ReadStdin | crates/x07-wasm/src/support/component/cli_command_bindgen_c_template.c:175-209 | the read loop ends with the buffer, heap and memory of the specification, or traps exactly when it does |
| NativeCli.NativeGlue.Run | crates/x07-wasm/src/support/component/cli_command_bindgen_c_template.c:163-265 | a returning run has the stated meaning for the streams and the solver's answer: the arena is allocated once, the heap pointer is that after the arena, and the result is success or the line with the code of what went wrong, spelled out; a run traps only in the listed cases |
| NativeCli.NativeGlue.RunAll | crates/x07-wasm/src/support/component/cli_command_bindgen_c_template.c:171-173 | any sequence of runs on one instance goes on until one traps, and each run has the meaning of a single run from the arena and heap pointer of the first |
| NativeCli.RunIsSolve | crates/x07-wasm/src/support/component/cli_command_bindgen_c_template.c:163-265 | with memory short of 4 GiB and a heap that starts at or above its base: a run succeeds only when the input is within budget and read to its end, the solver is called on exactly those bytes, and success means stdout is exactly its output |
| NativeCli.RunSucceedsIff | crates/x07-wasm/src/support/component/cli_command_bindgen_c_template.c:211-265 | with a working output stream a returned run succeeds exactly when its input is within the budget and read to its end and the output is within its budget; a success has an output within the limit whose report passes the arena test |
| NativeCli.RunHasRoom | crates/x07-wasm/src/support/component/cli_command_bindgen_c_template.c:163-265 | with that much memory above the heap a run traps only because the solver does or its report is not acceptable |
| NativeCli.ArenaStartsWell | crates/x07-wasm/src/support/component/cli_command_bindgen_c_template.c:163-173 | an arena that ends below 2^32 leaves a heap at or above its base |
| HostLayout.LayoutApart | crates/x07-wasm/src/wasm/abi_solve_v2.rs:66-71 | return slot, input and arena are 8-aligned, in order, disjoint, at or above heap base and data end, with the arena at most 22 bytes past base plus input |
| HostLayout.HostAndWrapperAgree | crates/x07-wasm/src/wasm/abi_solve_v2.rs:124-138 | the host's 64-bit test and the emitted 32-bit test accept the same reports when neither sum reaches 2^32 |
| HostLayout.WrapperAcceptsMore | crates/x07-wasm/src/wasm/abi_solve_v2.rs:124-138 | otherwise they differ exactly on reports whose sum wraps into range: the wrapper accepts them, the host does not |
| HostLayout.CallSolveV2 | crates/x07-wasm/src/wasm/abi_solve_v2.rs:56-163 | small memory and high arenas are refused without a call; otherwise the guest runs on the prepared memory, and the two little-endian words it leaves in the return slot decide: an output exactly when the length is within the limit and the report lies in arena and memory, and then byte for byte the memory at the reported pointer; each error exactly under its own comparison; the late bounds error cannot happen |
| HostLayout.PreparedBytes | crates/x07-wasm/src/wasm/abi_solve_v2.rs:91-96 | the guest finds eight zero bytes in the return slot, the input after them, and everything else as it was |
| HostLayout.VerdictIsAccepts64 | crates/x07-wasm/src/wasm/abi_solve_v2.rs:124-151 | so the output is handed back exactly when the 64-bit test accepts the report and memory still holds it |
| Base64.DecodeOne | crates/x07-wasm/src/guest_diag.rs:97-150 | one block of four characters decodes to its bytes or to the error of the code's order of checks |
| Base64.StrictBase64Decode | crates/x07-wasm/src/guest_diag.rs:76-163 | the block loop computes the strict decoder, errors included |
| Base64.StrictDecodeAccepts | crates/x07-wasm/src/guest_diag.rs:76-163 | success exactly on texts of at most 8192 bytes, length divisible by 4, over the alphabet of section 4 of RFC 4648, one or two `=` only at the very end, decoding to at most 4096 bytes; the three length errors exactly under their conditions |
| Base64.DecodeEncode | crates/x07-wasm/src/guest_diag.rs:76-163 | decoding undoes encoding for every byte string |
| Base64.StrictDecodeEncode | crates/x07-wasm/src/guest_diag.rs:76-163 | the strict decoder undoes encoding for every byte string within the decoded limit |
| Base64.EncodeDecode | crates/x07-wasm/src/guest_diag.rs:76-163 | re-encoding gives the text back exactly when the bits that padding leaves unused are zero |
| Base64.StdDecodeIff | crates/x07-wasm/src/caps/evidence.rs:265-277 | the standard engine decodes exactly the texts the encoder produces, each to its own bytes |
| Base64.AlphabetIs | crates/x07-wasm/src/guest_diag.rs:65-74 | the characters in order are the alphabet of section 4 of RFC 4648 |
| Base64.EncodeExamples | crates/x07-wasm/src/guest_diag.rs:76-163 | the padded and unpadded examples of section 10 of RFC 4648 |
| StderrDiag.TrimPadded | crates/x07-wasm/src/guest_diag.rs:33-44 | trimming removes exactly the spaces and tabs around a text |
| StderrDiag.TrimOws | crates/x07-wasm/src/guest_diag.rs:33-44 | the two index loops compute that trimming |
| StderrDiag.CountLineStartMatches | crates/x07-wasm/src/guest_diag.rs:234-250 | counts the lines that start with a one-line prefix and finds the first of them |
| StderrDiag.ParseSentinelLineValue | crates/x07-wasm/src/guest_diag.rs:252-262 | gives the trimmed rest of the line, without a final carriage return |
| StderrDiag.ParseDiagCode | crates/x07-wasm/src/guest_diag.rs:46-63 | accepts exactly 1 to 128 upper-case letters, digits and underscores |
| StderrDiag.ExtractGuestDiagFromStderr | crates/x07-wasm/src/guest_diag.rs:264-310 | the byte scan computes the reading by lines of the first 8192 bytes, with the code's order of refusals |
| StderrDiag.SentinelsAreFound | crates/x07-wasm/src/guest_diag.rs:264-310 | the scanned bytes, whatever lines they consist of, give a code and data exactly when one line says the code and there is no data line, or one data line, before or after it, that decodes to the data of an object |
| StderrDiag.RefusalsIff | crates/x07-wasm/src/guest_diag.rs:264-310 | nothing is said exactly when no line starts with either prefix, and each refusal of lines comes exactly under its condition, in the order of the code |
| StderrDiag.CodeByteIs | crates/x07-wasm/src/guest_diag.rs:46-63 | code bytes are the upper-case letters, the digits and the underscore |
| StderrDiag.LinesOfText | crates/x07-wasm/src/guest_diag.rs:234-250 | splitting joined lines gives the lines back |
| StderrDiag.EncodedDataAreSaid | crates/x07-wasm/src/guest_diag.rs:264-310 | data a guest encodes, up to 4096 bytes, are said by their line |
| StderrDiag.NativeCodesAreRead | crates/x07-wasm/src/support/component/cli_command_bindgen_c_template.c:144-161 | every line the native glue writes on standard error is read back by the host as its code |
| JsonText.PairsAreBijective | guest/http-state-doc-adapter/src/lib.rs:600-618 | surrogate pairs and the code points U+10000 to U+10FFFF correspond one to one (section 7 of RFC 8259) |
| JsonText.StringOfParts | guest/http-state-doc-adapter/src/lib.rs:563-618 | every well-formed string text, with any escapes, is read as its meaning up to the closing quote |
| JsonText.StringIsParts | guest/http-state-doc-adapter/src/lib.rs:563-618 | whatever is read as a string is a well-formed string text with that meaning |
| JsonText.SimpleEscapes | guest/http-state-doc-adapter/src/lib.rs:574-592 | a backslash and a letter other than `u` is read by the eight pairs of section 7 of RFC 8259 and refused otherwise |
| JsonText.RawCharacters | guest/http-state-doc-adapter/src/lib.rs:563-598 | a character is written as itself exactly when it is printable ASCII other than quote and backslash |
| JsonText.UnicodeEscapes | guest/http-state-doc-adapter/src/lib.rs:600-635 | four hexadecimal digits of either case are read as the UTF-8 form of the scalar they spell; a lone surrogate is refused |
| JsonText.PairEscapes | guest/http-state-doc-adapter/src/lib.rs:600-618 | a surrogate pair is read as the UTF-8 form of its code point |
| JsonText.HexDigitIff | guest/http-state-doc-adapter/src/lib.rs:620-635 | a byte has a digit value exactly when it is one of the two digits of that value |
| JsonText.EncodedIsUtf8 | guest/http-state-doc-adapter/src/lib.rs:586-590 | the character of an escape is written as exactly one valid UTF-8 character |
| JsonText.EncodedSpells | guest/http-state-doc-adapter/src/lib.rs:586-590 | the payload bits of an encoded character (section 3 of RFC 3629) are its code point |
| JsonText.CharIsEncoded | guest/http-adapter/src/lib.rs:311-327 | every UTF-8 character is the encoding of the scalar it spells, so none is overlong or a surrogate |
| JsonText.StringRoundTrip | guest/http-adapter/src/lib.rs:311-327 | parsing undoes printing for every UTF-8 text and any suffix |
| JsonText.NonUtf8IsRejected | guest/http-adapter/src/lib.rs:459-494 | bytes that are not UTF-8 would be printed but never read back |
| JsonText.NumberRoundTrip | guest/http-adapter/src/lib.rs:434-452 | parsing undoes printing exactly up to 2^32 - 1, and fails above |
| JsonText.U64FitsBuffer | guest/http-adapter/src/lib.rs:295-309 | the 20-byte digit buffer holds every 64-bit number |
| JsonScan.KeyRead | guest/http-state-doc-adapter/src/lib.rs:819-840 | a member's key and colon are read up to its value, with any whitespace |
| JsonScan.ValueSkipped | guest/http-state-doc-adapter/src/lib.rs:753-859 | skipping consumes exactly one value: any tree, any whitespace, any delimited suffix |
| JsonScan.ValueSpan | guest/http-state-doc-adapter/src/lib.rs:753-859 | everything the skipper accepts is whitespace and one value of sections 2 to 7 of RFC 8259, relaxed only to allow leading zeros |
| JsonScan.PrintedCharacters | guest/http-state-doc-adapter/src/lib.rs:753-859 | the grammar in its own characters: brackets, braces, commas, colons, quotes, literal names and whitespace |
| JsonScan.NumberCharacters | guest/http-state-doc-adapter/src/lib.rs:771-817 | a number is an optional minus, digits, an optional point and digits, and an optional exponent with its sign |
| JsonMembers.ObjectEvaluated | guest/http-state-doc-adapter/src/lib.rs:433-500 | the member loop over a printed object is the fold of the member meanings; an empty object is refused |
| JsonMembers.NotAnObject | guest/http-state-doc-adapter/src/lib.rs:433-445 | a value that is not an object is refused |
| Envelopes.HeadersParsed | guest/http-adapter/src/lib.rs:533-584 | reading headers from a printed value is what the value means |
| Envelopes.PayloadParsed | guest/http-adapter/src/lib.rs:586-647 | reading a payload from a printed value is what the value means |
| Envelopes.ResponseParsed | guest/http-adapter/src/lib.rs:329-394 | parsing a response envelope from a printed value, with anything after it, is what the value means, errors included |
| Envelopes.UintIff | guest/http-adapter/src/lib.rs:434-457 | a number is read exactly when it is written as digits alone, and as the number they denote |
| EnvelopeSpans.LoopSpan | guest/http-adapter/src/lib.rs:345-367 | conversely, whatever a member loop accepts is a list of members whose folded meanings are its result |
| EnvelopeSpans.ResponseAcceptedIff | guest/http-adapter/src/lib.rs:329-394 | a text is read as a response exactly when it starts with whitespace and one well-formed value that means that response |
| EnvelopeSpans.BackendAcceptedIff | guest/http-state-doc-adapter/src/lib.rs:370-431 | the same for backend responses and their state text |
| EnvelopeOrder.EvalFromKnown | guest/http-adapter/src/lib.rs:329-394 | a response is read exactly when each of its five members is there and means its part of it, and members of other names have no influence |
| EnvelopeFields.HeaderIff | guest/http-adapter/src/lib.rs:545-580 | a header is read exactly when its members `k` and `v` are there and are its texts |
| EnvelopeFields.HeaderListIff | guest/http-adapter/src/lib.rs:533-584 | a header list is read exactly as its header objects, in order |
| EnvelopeFields.BodyIff | guest/http-adapter/src/lib.rs:586-647 | a body is read exactly when `bytes_len` is its length and `base64` spells it, or else `text` does, or else it is empty |
| EnvelopeFields.BackendIff | guest/http-state-doc-adapter/src/lib.rs:370-431 | a backend response is read exactly when it names its schema, holds a readable response, and holds a state |
| EnvelopeFields.RequestSays | guest/http-state-doc-adapter/src/lib.rs:294-329 | the request text is the print of a value with each field under its own name |
| EnvelopeFields.BackendRequestSays | guest/http-state-doc-adapter/src/lib.rs:274-292 | the spliced document is the print of a value with its schema, that request and that state under their names |
| EnvelopeFields.TurnIff | guest/http-state-doc-adapter/src/lib.rs:84-150 | a turn sends back a header exactly when the incoming state decodes and the backend answers this request, and then the header decodes to the state of that answer |
| EnvelopeOrder.OrderDoesNotMatter | guest/http-adapter/src/lib.rs:329-394 | two response texts that agree up to member order, whitespace, string spelling and unknown members, in the envelope, inside each header and inside the body, give the same result |
| StateDoc.HeadersRoundTrip | guest/http-adapter/src/lib.rs:258-293 | every printed header list is read back unchanged, whatever follows |
| StateDoc.BodyRoundTrip | guest/http-adapter/src/lib.rs:586-647 | a printed body is read back exactly when its length fits 32 bits, and refused otherwise |
| StateDoc.RequestPrints | guest/http-state-doc-adapter/src/lib.rs:294-329 | the printed request envelope is one well-formed value |
| StateDoc.BackendRequestPrints | guest/http-state-doc-adapter/src/lib.rs:274-292 | splicing the text of one value gives one well-formed document with that value as its state |
| StateTurns.StateIsOneValue | guest/http-state-doc-adapter/src/lib.rs:370-431 | the slice taken as state is exactly one value |
| StateTurns.SpliceIsWellFormed | guest/http-state-doc-adapter/src/lib.rs:274-292 | that slice spliced into the next request gives one well-formed document, skipped to its end |
| StateTurns.BackendParsed | guest/http-state-doc-adapter/src/lib.rs:370-431 | parsing a backend response from a printed value is what the value means, with its state as raw text |
| StateTurns.TurnKeepsState | guest/http-state-doc-adapter/src/lib.rs:84-150 | one request whose answer carries the state it was given sends that state back |
| StateTurns.StateSurvives | guest/http-state-doc-adapter/src/lib.rs:84-150 | over any number of requests, each answered with the state it was given, the state document comes back byte for byte |
| StateAnswers.ResponseMeans | guest/http-state-doc-adapter/src/lib.rs:433-500 | every response with UTF-8 texts, a 16-bit status and a 32-bit body is the meaning of its document |
| StateAnswers.AnswerIsRead | guest/http-state-doc-adapter/src/lib.rs:370-431 | every such response printed with any state value is read back with that state, so answers exist for every request |
| JsonCursor.Cursor.SkipWhitespace | guest/http-state-doc-adapter/src/lib.rs:520-529 | moves past exactly the leading whitespace |
| JsonCursor.Cursor.ExpectBytes | guest/http-state-doc-adapter/src/lib.rs:861-868 | succeeds exactly on that text and moves past it |
| JsonCursor.Cursor.ParseU32Value | guest/http-state-doc-adapter/src/lib.rs:538-556 | reads all digits and refuses numbers past 2^32 - 1 |
| JsonCursor.Cursor.ParseU16Value | guest/http-state-doc-adapter/src/lib.rs:558-561 | refuses numbers past 2^16 - 1 |
| JsonCursor.Cursor.ParseHexFour | guest/http-state-doc-adapter/src/lib.rs:620-635 | reads four hexadecimal digits of either case |
| JsonCursor.Cursor.ParseUnicodeEscape | guest/http-state-doc-adapter/src/lib.rs:600-618 | joins a surrogate pair and refuses an unpaired one |
| JsonCursor.Cursor.ParseEscape | guest/http-state-doc-adapter/src/lib.rs:574-592 | reads one escape of the string grammar |
| JsonCursor.Cursor.ParseStringValue | guest/http-state-doc-adapter/src/lib.rs:563-598 | reads a string by the grammar that StringOfParts and StringIsParts characterise |
| JsonCursor.Cursor.SkipNumberText | guest/http-state-doc-adapter/src/lib.rs:771-817 | skips a number with optional sign, fraction and exponent |
| JsonCursor.Cursor.SkipAnyValue | guest/http-state-doc-adapter/src/lib.rs:753-769 | skips the value that ValueSkipped and ValueSpan characterise, ending because every call shortens the remaining bytes |
| JsonCursor.Cursor.SkipObject | guest/http-state-doc-adapter/src/lib.rs:819-840 | skips an object by the same grammar |
| JsonCursor.Cursor.SkipArray | guest/http-state-doc-adapter/src/lib.rs:842-859 | skips an array by the same grammar |
| AdapterCode.ReadHeader | guest/http-adapter/src/lib.rs:545-580 | reads one header object with its members in any order |
| AdapterCode.ReadHeaders | guest/http-adapter/src/lib.rs:533-584 | the header loop computes what HeadersParsed characterises |
| AdapterCode.ReadStreamPayload | guest/http-adapter/src/lib.rs:586-647 | the payload loop computes what PayloadParsed characterises |
| AdapterCode.ParseResponseEnvelope | guest/http-adapter/src/lib.rs:329-394 | the envelope loop computes what ResponseParsed characterises |
| AdapterCode.TakeSlice | guest/http-state-doc-adapter/src/lib.rs:395-410 | keeps exactly the bytes of the skipped value |
| AdapterCode.ParseBackendResponse | guest/http-state-doc-adapter/src/lib.rs:370-431 | the backend loop computes what BackendParsed characterises |
| AdapterCode.ReadIncomingBodyLimited | guest/http-adapter/src/lib.rs:220-256 | the read loop computes the body that ReceivedIsItsChunks characterises, never longer than the limit |
| AdapterCode.Output.PushU64Dec | guest/http-adapter/src/lib.rs:295-309 | appends the decimal digits of any 64-bit number without underflowing the buffer |
| AdapterCode.Output.PushJsonString | guest/http-adapter/src/lib.rs:311-327 | appends the quoted, escaped text |
| AdapterCode.PushHeaders | guest/http-state-doc-adapter/src/lib.rs:311-320 | appends the header list that HeadersRoundTrip reads back |
| AdapterCode.RequestEnvelopeBytes | guest/http-state-doc-adapter/src/lib.rs:294-329 | the pushes give the request envelope text |
| AdapterCode.BackendRequestBytes | guest/http-state-doc-adapter/src/lib.rs:274-292 | the pushes give the spliced document |
| Evidence.SeedRoundTrip | crates/x07-wasm/src/caps/evidence.rs:112-119 | the printed seed is parsed back for every 128-bit seed |
| Evidence.SavedDocumentOpens | crates/x07-wasm/src/caps/evidence.rs:99-262 | the document built from any evidence opens as a replay of exactly its streams, seed and secrets, all cursors at the start |
| Evidence.ReplayOpensIff | crates/x07-wasm/src/caps/evidence.rs:99-135 | a document opens exactly when its version matches, both byte texts are encoder outputs and the seed text is empty or a 128-bit number; each refusal has its reason |
| Evidence.SeedTextIff | crates/x07-wasm/src/caps/evidence.rs:112-119 | a seed text is read exactly when it is digits, after an optional plus sign, of a number below 2^128 |
| Evidence.EvidenceCtx.OpenReplay | crates/x07-wasm/src/caps/evidence.rs:99-135 | opening gives that replay or the first problem in the order of the code |
| Evidence.EvidenceCtx.ReplayWallClock | crates/x07-wasm/src/caps/evidence.rs:146-156 | hands out the next reading, or reports an error and moves nothing |
| Evidence.EvidenceCtx.ReplayMonotonicClock | crates/x07-wasm/src/caps/evidence.rs:163-173 | hands out the next reading, or reports an error and moves nothing |
| Evidence.EvidenceCtx.RecordRandom | crates/x07-wasm/src/caps/evidence.rs:175-178 | appends the bytes to the stream of the given kind only |
| Evidence.EvidenceCtx.ReplaySecureInto | crates/x07-wasm/src/caps/evidence.rs:180-197 | fills the buffer with the next recorded bytes, or with zeros and an error when too few remain |
| Evidence.EvidenceCtx.ReplayInsecureInto | crates/x07-wasm/src/caps/evidence.rs:204-221 | the same for the other stream |
| Evidence.EvidenceCtx.Save | crates/x07-wasm/src/caps/evidence.rs:244-262 | saves the streams and seed of the current state |
| Evidence.EvidenceWallClock.Now | crates/x07-wasm/src/caps/enforce.rs:261-277 | recording clamps and keeps the reading it returns; replaying returns the recorded one or zero |
| Evidence.EvidenceMonotonicClock.Now | crates/x07-wasm/src/caps/enforce.rs:290-299 | recording clamps and keeps the reading it returns; replaying returns the recorded one or zero |
| Evidence.EvidenceRng.Fill | crates/x07-wasm/src/caps/enforce.rs:358-370 | recording keeps exactly the bytes it hands out; replaying hands out the recorded ones |
| Evidence.EvidenceRng.NextU32 | crates/x07-wasm/src/caps/enforce.rs:346-350 | the word whose little-endian bytes are the next four of the stream |
| Evidence.EvidenceRng.NextU64 | crates/x07-wasm/src/caps/enforce.rs:352-356 | the word whose little-endian bytes are the next eight of the stream |
| Evidence.LeRoundTrip | crates/x07-wasm/src/caps/enforce.rs:346-356 | a little-endian word determines its bytes |
| Evidence.WordsOfBytes | crates/x07-wasm/src/caps/enforce.rs:346-356 | the words are little-endian, written out in bytes |
| EvidenceRuns.WireCapabilities | crates/x07-wasm/src/caps/enforce.rs:116-172 | both clocks and both generators share one evidence context; denied sources are zero, a recorded one without evidence is refused, and the seed is set or replayed |
| EvidenceRuns.ClockAnswers | crates/x07-wasm/src/caps/enforce.rs:116-142 | a clock shows zero when denied, the host's time when allowed, and while recording the host's time, cut to 64 bits and kept |
| EvidenceRuns.RandomAnswers | crates/x07-wasm/src/caps/enforce.rs:143-172 | random bytes are zero when denied and the host's when allowed; while recording they are the host's and go to their own stream |
| EvidenceRuns.WordAnswers | crates/x07-wasm/src/caps/enforce.rs:346-356 | a word is the little-endian number of the bytes a fill of its size gives |
| EvidenceRuns.SeedAnswers | crates/x07-wasm/src/caps/enforce.rs:143-172 | the seed is zero, the host's, or the recorded one |
| EvidenceRuns.EnvKeyIs | crates/x07-wasm/src/caps/enforce.rs:216-226 | a secret's variable is its id in upper case with everything but letters and digits replaced |
| EvidenceRuns.ProvideSecrets | crates/x07-wasm/src/caps/enforce.rs:56-86 | each allowed secret goes into the guest's environment and, only while recording, into the evidence, in order up to the first one missing or unreadable, which is named |
| EvidenceRuns.RecordThenReplay | crates/x07-wasm/src/caps/evidence.rs:99-262 | for every deterministic guest and any host, replaying the saved document gives the same seed and answers in order, uses up every recorded item and reports no error |
| EvidenceRuns.AllowIsNotReplayed | crates/x07-wasm/src/caps/enforce.rs:121-172 | with a capability on "allow" this fails: for each such setting a guest and two hosts whose replay differs |
| EvidenceRuns.OneQuestion | crates/x07-wasm/src/caps/evidence.rs:146-221 | one question moves only its own stream, by its size, or reports one error by name, moves nothing and answers zero |
| EvidenceRuns.ReplayHandsOutPrefixes | crates/x07-wasm/src/caps/evidence.rs:146-221 | for any chunking and interleaving a replay reports no error exactly when no stream is asked for more than it recorded, and then each stream has handed out exactly the beginning of its recording |
| CanonJson.CanonIff | crates/x07-wasm/src/util.rs:99-120 | two values have the same canonical form exactly when they differ only in the order of object members, at any depth |
| CanonJson.CanonSorted | crates/x07-wasm/src/util.rs:99-120 | in the result the keys of every object are in byte order, the first differing byte deciding and a proper prefix first, and it differs from the input only in member order |
| KeyOrder.LessIff | crates/x07-wasm/src/util.rs:99-120 | the key comparison is that of the first differing byte, a proper prefix first |
| CanonJson.CanonFixed | crates/x07-wasm/src/util.rs:99-120 | the canonical values are exactly the sorted ones, so canonicalising twice changes nothing |
| CanonJson.CanonValue | crates/x07-wasm/src/util.rs:99-120 | sorting the entries, rewriting each value and inserting them again computes that form |
| HttpEffects.PayloadRoundTrip | crates/x07-wasm/src/stream_payload.rs:5-57 | both ways of writing bytes as a payload are read back as those bytes |
| HttpEffects.PayloadIff | crates/x07-wasm/src/stream_payload.rs:5-30 | a payload decodes exactly when its length agrees and its base64 member spells the bytes, or else its text does, or else they are none |
| HttpEffects.PayloadSays | crates/x07-wasm/src/stream_payload.rs:32-41 | a payload states length and base64, and text exactly for UTF-8 |
| HttpEffects.CompactPayloadSays | crates/x07-wasm/src/stream_payload.rs:43-56 | a compact payload states length and one spelling |
| HttpEffects.StoreHoldsLastPut | crates/x07-wasm/src/http_reducer/replay.rs:272-327 | after any list of effects each key holds the bytes of its last successful put, or what it held before |
| HttpEffects.GetReadsLastPut | crates/x07-wasm/src/http_reducer/replay.rs:272-327 | a get after any effects answers with a payload that reads back as those bytes, or with not found |
| HttpEffects.KindsByName | crates/x07-wasm/src/http_reducer/replay.rs:263-584 | effects are told apart by the five names of their types |
| HttpEffects.GetAnswers | crates/x07-wasm/src/http_reducer/replay.rs:272-291 | a get says whether its key is held, gives bytes that read back, and changes nothing |
| HttpEffects.PutAnswers | crates/x07-wasm/src/http_reducer/replay.rs:292-324 | a put stores decoded bytes under its key alone; otherwise it fails with an error and stores nothing |
| HttpEffects.TimeAnswers | crates/x07-wasm/src/http_reducer/replay.rs:336-364 | the time is given exactly when the clocks are not denied, and only then counts as a use of the clock |
| HttpEffects.OtherAnswers | crates/x07-wasm/src/http_reducer/replay.rs:325-584 | logging succeeds, unknown types fail with an error, and neither changes anything |
| HttpEffects.FetchAnswers | crates/x07-wasm/src/http_reducer/replay.rs:365-372 | a fetch is the outside world's answer and only adds to what was used |
| HttpEffects.FoundValueCounts | crates/x07-wasm/src/http_reducer/replay.rs:240-261 | a found value counts with its length, a missing one with zero |
| HttpEffects.CountedBytes | crates/x07-wasm/src/http_reducer/replay.rs:240-261 | fetched bodies and found values count their length, everything else nothing |
| HttpEffects.BudgetIsExact | crates/x07-wasm/src/http_reducer/replay.rs:186-214 | all effects of a frame run exactly when their true byte total fits the budget (the largest 64-bit budget admits everything), and then as without a budget |
| HttpEffects.OverStops | crates/x07-wasm/src/http_reducer/replay.rs:186-214 | over budget, exactly the effects up to the first total that is too large have run |
| HttpEffects.HttpEffectState.ExecuteEffect | crates/x07-wasm/src/http_reducer/replay.rs:263-372 | one effect gives its result, store change, flags and diagnostics |
| HttpReducer.RunEffects | crates/x07-wasm/src/http_reducer/replay.rs:181-214 | the effect loop stops at the first result that passes the budget, keeping what ran before |
| HttpReducer.RunHttpReducerLoop | crates/x07-wasm/src/http_reducer/replay.rs:61-229 | the step loop computes the run: response, trace, diagnostics and effect state |
| HttpReducer.TraceIsChain | crates/x07-wasm/src/http_reducer/replay.rs:61-229 | every trace has at most the budgeted steps; each step holds exactly a dispatch of the previous state, the request and the in-order effect results, and the frame the core gave for its canonical bytes; only the last frame may carry a response; effect state and diagnostics are those of the effects run; and without a response the run ended for one of three reasons, each with its error |
| HttpReducer.DispatchSays | crates/x07-wasm/src/http_reducer/replay.rs:75-81 | a dispatch has five members: version, kind, state, request and effect results, each under its own name |
| HttpReducer.AskIff | crates/x07-wasm/src/http_reducer/replay.rs:83-160 | a frame comes back exactly when a valid dispatch was answered with bytes that read as that valid frame |
| HttpReducer.AskRefuses | crates/x07-wasm/src/http_reducer/replay.rs:83-160 | otherwise the first diagnostic names the reason |
| HttpReducer.TraceSays | crates/x07-wasm/src/http_reducer/replay.rs:231-238 | a trace document holds its steps under their name |
| HttpReducer.FrameReads | crates/x07-wasm/src/http_reducer/replay.rs:162-190 | state, effects and response are read from the frame by name; a null response is none |
| TraceReplay.RunTraceCase | crates/x07-wasm/src/http_reducer/test.rs:233-392 | accepts exactly when every step passes; otherwise names the first failing step with its dispatch and frames, and reports why the core gave no frame or that the frames differ |
| TraceReplay.StepPassesIff | crates/x07-wasm/src/http_reducer/test.rs:265-381 | a step passes exactly when the core answers its `env` with a frame that is its `frame` up to member order |
| TraceReplay.EmittedTraceIsAccepted | crates/x07-wasm/src/http_reducer/test.rs:233-392 | every trace the loop emits is accepted, whatever its run ended with |
| TraceReplay.ReorderedTraceIsAccepted | crates/x07-wasm/src/http_reducer/test.rs:233-392 | so is the trace after any reordering of object members, at any depth |
| WitDeps.LastEntryWins | crates/x07-wasm/src/wit/index.rs:65-71 | a lookup finds the last index entry of an id |
| WitDeps.IdsTellApart | crates/x07-wasm/src/wit/index.rs:104-109 | ids are written namespace:name@version and tell packages apart |
| WitDeps.LastEntryPath | crates/x07-wasm/src/wit/bundle.rs:115-160 | a package's directory is the path of its last index entry, below the working directory unless absolute |
| WitDeps.TransitiveDeps | crates/x07-wasm/src/wit/bundle.rs:115-176 | succeeds exactly when every visited package parses; the result is in byte order, without repeats, and is exactly the ids (namespace:name@version) reachable through indexed packages with a directory, never the main one; each left-out dependency is reported once with its reason |
| FreestandingLibc.Memcpy | crates/x07-wasm/src/wasm/phase0_shim.c:11-18 | copies the old source bytes when the target is not above an overlapping source, and never writes outside the target |
| FreestandingLibc.Memmove | crates/x07-wasm/src/wasm/phase0_shim.c:20-34 | the target gets the old source bytes for every overlap, and nothing else changes |
| FreestandingLibc.DecimalDenotes | crates/x07-wasm/src/wasm/phase0_shim.c:75-89 | the decimal digits denote the number and have no leading zero |
| FreestandingLibc.HexDenotes | crates/x07-wasm/src/wasm/phase0_shim.c:91-106 | the hexadecimal digits denote the address and have no leading zero |
| FreestandingLibc.DirectivesPrint | crates/x07-wasm/src/wasm/phase0_shim.c:108-143 | what each directive prints, and that an unknown one prints itself |
| FreestandingLibc.Writer.WriteChar | crates/x07-wasm/src/wasm/phase0_shim.c:60-66 | the buffer holds what of the text fits before its last byte, until the text reaches 2^32 characters and a character is written outside |
| FreestandingLibc.Writer.WriteStr | crates/x07-wasm/src/wasm/phase0_shim.c:68-73 | appends the string, or `(null)` |
| FreestandingLibc.Writer.WriteU32Dec | crates/x07-wasm/src/wasm/phase0_shim.c:75-89 | appends all decimal digits: the 16-byte buffer never fills before the number ends |
| FreestandingLibc.Writer.WritePtrHex | crates/x07-wasm/src/wasm/phase0_shim.c:91-106 | appends all hexadecimal digits: the 8-byte buffer is exactly large enough |
| FreestandingLibc.Snprintf | crates/x07-wasm/src/wasm/phase0_shim.c:108-151 | leaves the first min(L, n - 1) characters of the unbounded rendering, one NUL and the rest of the buffer untouched, and returns L when L is below 2^31 and a negative number up to 2^32 (section 7.21.6.5 of ISO/IEC 9899:2011); a character is written outside the n bytes exactly when L reaches 2^32 |

## Left out

- WasmInject.InjectSolveHandlerLegacyAbi: starts from decoded sections; binary decoding and encoding are not modelled, and the final validator is the predicate that indices are in range, export names distinct, and the two callees have the types the injected bodies need. Full type checking of bodies is not.
- WasmInject.InjectionPreservesMeaning: instructions that touch only the operand stack and memory are covered as arbitrary effects; reference types, exceptions, passive data segments and several memories are not (tables, tags and element sections are refused by the code itself).
- SolveProtocol.ProtocolRuns: for calls that return; memory after a trap is not described, and the solver is assumed to write only its two areas, as the wrapper does not check this. Initial placement of data segments by the instantiating host is not modelled.
- Allocator.AllocatorRuns: under the bound on sums, since otherwise it is false (`WrapLosesTheHeap`).
- NativeCli.RunIsSolve: for memories short of the full 4 GiB and heaps at or above their base; `FullMemoryLosesInput` and `LowHeapLosesInput` are the failures outside. The heap reset, the budgets and the meaning of the result hold without it.
- HostLayout.CallSolveV2: for inputs that fit a Rust slice; the guest call is a function of memory and arguments.
- JsonScan.ValueSkipped: for strings without unpaired surrogates, which the parser refuses.
- EnvelopeOrder.OrderDoesNotMatter: for texts in which each known member occurs once in its object; with repetitions the last one wins.
- StateTurns.StateSurvives: a state header sent by a client is not checked by the adapter, so the statement starts from a header that decodes to one value.
- The sorting of request headers, the lossy decoding of header bytes, and the response body chunks written by the adapters.
- EvidenceRuns.RecordThenReplay: secrets are resolved anew by a replay (`ProvideSecrets`) and are not part of the guest's answers; the JSON file between saving and opening is taken to keep the document.
- HttpEffects.HttpEffectState.ExecuteEffect: http.fetch is one step of the outside world with a result, diagnostics and a network flag; error texts of failed puts are arbitrary.
- HttpReducer.RunHttpReducerLoop: the core, the schema checks and JSON text are functions of their inputs; messages of diagnostics are not modelled, and the failure to load a schema is not.
- TraceReplay.ReorderedTraceIsAccepted: assumes that the dispatch schema does not look at member order and that parsed objects have distinct keys.
- TraceReplay.StepPassesIff: assumes that printing tells canonical values apart.
- CanonJson.CanonValue: gives the rewritten value; the rewriting in place is not modelled. Diagnostic lists are likewise passed in and returned.
- Evidence.EvidenceCtx.Save: the mutex around the evidence is not modelled; calls are taken one at a time.
- WitDeps.TransitiveDeps: parsing a package and testing for a directory are functions of the path; copying the bundle is not modelled.
- FreestandingLibc.Snprintf: what memory holds after a character was written outside the buffer.
- FreestandingLibc.Memcpy: a target above an overlapping source, which the C standard leaves undefined.
- The diagnostic headers of HTTP responses, whose reading repeats the standard-error one without the line scan.
- memset, memcmp, the native HTTP proxy glue, reports, command line handling, process limits, preopened directories and network rules: each would add only one-branch facts.
