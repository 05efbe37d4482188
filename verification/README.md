# The bounded parser machine, verified

A Dafny model of pakeles: the IR and its operational semantics, the reference interpreter, the
validator's analyses, the C and eBPF parse cores that the generator emits, several descriptions with
exact characterisations of what they accept, the compile passes of the Python eDSL, and the packet
codecs. `dafny verify dfyconfig.toml` checks everything.

## How the project is organised

| files | what they hold |
|---|---|
| `Bits`, `Ir`, `Semantics` | bit strings, unsigned 64-bit arithmetic, the IR, and a run as a function of program and packet |
| `Regions`, `Totality`, `UsePoints`, `Truncation`, `Budget`, `Observables`, `Placement`, `PopRules`, `ByteView` | theorems about every program on every packet |
| `Alignment`, `Loads`, `ByteLoads`, `ParseCore`, `Verdict`, `Generator` | the generator's analyses and the emitted parser: a class with the C locals and the result struct as fields, proved to return what a run returns |
| `WholeBytes`, `Steps`, `Layouts`, `Certificates` | tools for the descriptions below |
| `TlvItems`, `TlvCore`, `CountedItems` | two examples, each with its generated core case by case: guards, masked indices, present flags and fields |
| `TlsClienthello`, `TlsGrammar`, `TlsEncoding`, `TlsWalk`, `TlsGenerated` | the TLS ClientHello description, its recogniser, an independent encoder, a scan that gives every refusal its reason, and the generated parser |
| `QuicInitial`, `QuicRuns`, `QuicGenerated` | the QUIC Initial description and the integer decoding of section 16 of RFC 9000 |
| `BigUnion`, `FlowDissector`, `EthIpvxL4` | the 29-state acyclic graph, the cyclic kernel dissector, and the C/eBPF pair |
| `Walks`, `BigUnionWalk`, `FlowWalk`, `EthIpvxWalk` | the same three told from the packet's bits alone: which header follows which, by literal ethertypes, protocol numbers, offsets and sizes, and the proofs that every run is that walk |
| `Coverage`, `Select`, `Dispatch`, `Hoist` | arm expansion, overlap and exhaustiveness checks of `select`, and the hoisting of inline states (classes updated in place) |
| `Codecs`, `Pcap` | canonical bit strings and hex, and the capture file writer and reader |
| `Counterexamples` | inputs on which a promise of the repository fails |

Names of states, instances, fields, registers and reject reasons are numbers; states are numbered as
the generated `PK_S_` constants are. Unsigned 64-bit values are integers with `Wrap` written out.
The preconditions on buffers are those of the emitted code: the bit length is covered by the buffer
and at most 2^63, and within the eBPF buffer mask for the masked variant.

## Where the code and its promises differ

1. **Reason of an unexhausted region.** The semantics document (section 4.7) and the interpreter
   report "out of bounds" when a popped region ends past the input. The emitted C always reports
   "region not exhausted". `PopRules.ReasonsAgreeExactly` says for every program and packet when the
   reasons differ; `Counterexamples.ReasonsDiffer` is an input. They agree whenever every outermost
   region ends inside the input (`PopRules.InsideAgrees`): for programs without regions
   (`PopRules.WithoutRegionsAgree`), for tlv_items always (`TlvItems.ReasonsNeverDiffer`), for the
   ClientHello when the packet holds its whole record (`TlsGenerated.WholeRecordReasonsAgree`).
   Everything else agrees, so the theorems about generated code are stated against the run with the
   emitted pop rule.
2. **Byte loads.** The generator looks a field's alignment up by instance and name, first match. A
   state that extracts one instance twice can byte-load the second occurrence off a byte boundary:
   `Counterexamples.SecondOccurrenceByteLoaded` is a program that passes every check of the document
   and three bytes on which the emitted load stores 0 where the run stores 15. The loads of a state
   of fixed fields are right for every buffer exactly when its byte-loaded sites are aligned
   (`ByteLoads.LoadsRightIffSitesAligned`), and that is what `Generator.Emits` asks, at the residues
   the analysis computes.
3. **The verdict word.** A reason code of 256 or more spills into the outcome byte. The word decodes
   to what was packed exactly when the code is below 256 and the count below 2^48
   (`Verdict.VerdictIsExact`); that holds for every program of at most 240 authored reasons
   (`Generator.PkEntry`).
4. **Definite extraction.** The validator accepts push lengths, widths and keys that the semantics
   document forbids; three such programs fault on every packet
   (`Counterexamples.AcceptedButFaults`). The document accepts exactly the validated programs that
   also pass three checks: pushes name definitely extracted instances, widths only fields read before
   them, and every reference is to a fixed field (`UsePoints.StrictIsLaxAndDefinite`). A validated
   program faults on a packet exactly when it reaches a use point that dangles
   (`UsePoints.FaultsExactly`): an assign or key that names a variable-length field, a push that names
   one or an instance no state so far extracted (`UsePoints.EnteredUsesDangle`), or a width that names
   something not read before it. Under the document's rules no program faults (`Totality.NeverFaults`).
5. **QUIC token lengths.** The token's length in bits wraps at 2^64, so a token of 2^61 bytes or more
   is accepted in a packet of sixteen (`QuicRuns.WrappedTokenAccepted`). The token takes as many bytes as
   its length says exactly when the length is below 2^61 (`QuicRuns.TokenIsWhole`).

## Model

| member | source | states |
|---|---|---|
| Regions.EntrySound | docs/reference/ir-semantics.md:192-200 | at every reachable state entry of every program on every packet the open region ends are nested and the cursor is inside the innermost region and the input, so no unsigned subtraction underflows |
| Regions.HeightIsStatic | docs/reference/ir-semantics.md:127-132 | with consistent depths, the height of the region stack at every reachable entry is a function of the state |
| Regions.AssignDepths | rust/pakeles/src/ir/validate.rs:698-792 | the worklist finds a depth for every state it reaches, the only possible one, and fails exactly when no consistent assignment exists |
| Totality.NeverFaults | docs/reference/ir-semantics.md:153-159 | a program that is well formed by the document's static rules never reaches an undefined evaluation, on any packet under any budget |
| UsePoints.StrictIsLaxAndDefinite | docs/reference/ir-semantics.md:120-126 | the document's reference checks hold exactly when the validator's do and pushes name definitely extracted instances, widths only what was read before them, and every reference a fixed field |
| UsePoints.EnteredUsesDangle | rust/pakeles/src/ir/validate.rs:846-950 | at every state entered by a validated program an assign or key cannot be evaluated exactly when it names a variable-length field, a push exactly when it names one or an instance not extracted so far |
| UsePoints.FaultsExactly | rust/pakeles/src/interp/eval.rs:13-45 | a validated program faults on a packet exactly when it enters a state with such a use point, or a width naming something not read before it, and does not stop for bounds first |
| Truncation.ResultIsStable | docs/reference/ir-semantics.md:89-94 | any result other than "out of bounds" is the same on every extension of the packet |
| Truncation.TruncationExact | docs/reference/ir-semantics.md:248-262 | what a decided run gives on every prefix of its packet: the same result if no read, peeks included, needed a missing bit, else "out of bounds" at the machine cursor of the first that did |
| Budget.DepthIsMonotone | docs/reference/ir-semantics.md:221-234 | raising max_depth never changes a result other than "max depth exceeded" |
| Budget.RankTerminates | docs/reference/ir-semantics.md:321-323 | in a graph whose ranks fall along every edge, a budget above the start's rank is never exhausted |
| Budget.ProgressTerminates | docs/reference/ir-semantics.md:318-323 | if of two consecutive state entries one consumes w bits, a budget of 2 + 2 * (L / w) is never exhausted on L bits, whatever the cycles |
| Observables.ConsumedIsConserved | docs/reference/ir-semantics.md:69-76 | consumed bits are exactly the widths of the extracted headers, peeks excluded and a partial last header included, and the environment is the reported fields with later ones overwriting earlier ones |
| Placement.HeadersArePlaced | docs/reference/ir-semantics.md:69-76 | in every result of every program each reported header starts where the extracted ones before it end, each field where the fields before it end; the fields are the first declared ones of a header some state extracts; a fixed field is the number its bits spell, a variable one the run it covers |
| Observables.LastHeadersByInstance | rust/pakeles-testkit/src/lib.rs:43-57 | the fold lists each instance once, in first-seen order, with its last occurrence |
| Observables.SlotsAreLastHeaders | rust/pakeles-testkit/src/lib.rs:43-46 | on acceptance the overwritten struct slots are, for every instance, exactly the fields of its last occurrence |
| PopRules.ReasonsAgreeExactly | rust/pakeles/src/interp/mod.rs:392-421 | interpreter and generated pop rule agree on consumed bits, fields, registers and headers for every program and packet; the reasons are equal if and only if the run does not stop at an unexhausted region that ends past the input |
| PopRules.InsideAgrees | rust/pakeles/src/interp/mod.rs:392-421 | if every region pushed while none is open ends inside the input, the two rules give the same outcome |
| PopRules.WithoutRegionsAgree | docs/reference/ir-semantics.md:373-400 | a program without region operations gets the interpreter's reason on every packet |
| ByteView.EntryOnBytes | python/src/pakeles/_expr.py:122-155 | in every run of a program of whole-byte headers and regions every state is entered on a byte boundary with whole-byte regions, and remaining_bits is 8 * (remaining_bits >> 3) at every assign, push and key |
| ByteView.ByteTwinAgrees | rust/pakeles/src/builder.rs:489-519 | for every such program, keying selects on the byte view instead of bits, exact, masked and range entries divided by 8, changes nothing in the result of any packet |
| Alignment.ExprMod8Sound | rust/pakeles/src/codegen/mod.rs:106-153 | a statically known residue modulo 8 is the residue of every value the expression can take, wrapping included |
| Alignment.EntryAlignments | rust/pakeles/src/codegen/mod.rs:187-242 | the worklist computes the most precise solution: it covers only states every solution covers and knows every residue that some solution knows |
| Alignment.PreciseIsUnique | rust/pakeles/src/codegen/mod.rs:187-242 | there is only one such solution, so the analysis is a function of the program |
| Alignment.EntryAligned | rust/pakeles/src/codegen/mod.rs:178-189 | every reachable entry of a state with a known residue has that residue |
| Alignment.DistinctInstancesSuffice | rust/pakeles/src/codegen/mod.rs:308-352 | if no state extracts an instance twice, every field the generator byte-loads starts at a multiple of 8 |
| ByteLoads.ByteLoadRightIffAligned | rust/pakeles/src/codegen/c.rs:370-376 | a byte load is right for every buffer if and only if the cursor is a multiple of 8 |
| ByteLoads.LoadsRightIffSitesAligned | rust/pakeles/src/codegen/mod.rs:308-352 | a state of fixed fields entered at a known residue reads each byte-loaded field as its bits on every buffer if and only if the sites it byte-loads are aligned |
| Loads.ReadBits | rust/pakeles/src/codegen/c.rs:537-557 | the bit loop returns the big-endian, most-significant-bit-first value of the bit slice, masked index or not |
| Loads.LoadIsRead | rust/pakeles/src/codegen/c.rs:370-410 | at a multiple of 8 the or-ed byte loads equal the bit loop's value |
| Loads.NarrowKeeps | rust/pakeles/src/codegen/c.rs:189-196 | the cast to the field's integer type loses nothing |
| ParseCore.OpAgrees | rust/pakeles/src/codegen/c.rs:216-262 | the emitted 64-bit operators, a shift amount masked with 63 unless it is a literal below 64, give the interpreter's wrapping results |
| ParseCore.PickArm | rust/pakeles/src/codegen/c.rs:803-840 | the emitted if-chain, with its dropped comparisons, picks the first matching arm in declared order, else the default |
| ParseCore.Core.InBounds | rust/pakeles/src/codegen/c.rs:683-700 | the two guards of a fixed read fail with the reason and consumed bits of the semantics, and the additions do not wrap |
| ParseCore.Core.FixedField | rust/pakeles/src/codegen/c.rs:681-717 | guards, load, store and advance of one fixed field change the struct and the cursor as the semantics does |
| ParseCore.Core.VarField | rust/pakeles/src/codegen/c.rs:718-740 | the subtraction guards of a computed length decide as the semantics does, wrapped lengths included |
| ParseCore.Core.Assign | rust/pakeles/src/codegen/c.rs:747-760 | a register takes the value modulo its width, nothing else changes |
| ParseCore.Core.Push | rust/pakeles/src/codegen/c.rs:763-788 | a push adds one region end, the masked slot is the free one, and it fails as the semantics does or on a full stack |
| ParseCore.Core.Pop | rust/pakeles/src/codegen/c.rs:789-799 | a pop removes the innermost end if the cursor is there, else reports the region as not exhausted |
| ParseCore.Core.RunTransition | rust/pakeles/src/codegen/c.rs:803-842 | the transition of a state goes where the semantics decides, or returns its outcome in the struct |
| ParseCore.Core.Run | rust/pakeles/src/codegen/c.rs:565-606 | the depth loop and switch return, in the struct, outcome, reason, consumed bits, present set, fields and registers of the run, for every program with one region depth per state and aligned byte loads, on every input on which the interpreter does not fault |
| Generator.NextPowerOfTwo | rust/pakeles/src/codegen/c.rs:577-582 | the region stack's capacity is the least power of two that holds every push |
| Generator.ParseBuffer | rust/pakeles/src/codegen/c.rs:880-891 | for every program that can be emitted and every buffer on which the interpreter does not fault, the analyses succeed and the emitted core returns the run's result |
| Generator.RunBoth | rust/pakeles/src/codegen/c.rs:323-332 | the plain and the masked parse core return the same struct for every such program and every packet within the buffer mask |
| Generator.RunBelow | rust/pakeles/src/codegen/c.rs:108-155 | a run rejects only with reason codes named by the program's transitions |
| Generator.PkEntry | examples/eth_ipvx_l4/gen/parser.bpf.c:526-534 | the eBPF entry point: for every such program and memory block, the verdict word decodes to the run's outcome and consumed bits and to reason 0 on accept, 1 to 6 for the six built-in reasons and 16 + code for authored ones, exactly when that code fits its byte, so always for at most 240 authored reasons |
| Generator.VerdictTellsOutcome | examples/eth_ipvx_l4/gen/parser.h:13-20 | two runs whose verdicts decode to the same outcome and reason number were both accepted, or rejected for the same reason |
| Verdict.UnpackPack | rust/pakeles-testkit/src/lib.rs:276-278 | what any packed verdict decodes to, overflow of the reason byte and of the 48-bit count included |
| Verdict.VerdictIsExact | rust/pakeles-testkit/src/lib.rs:274-278 | decoding returns what was packed if and only if the reason is below 256 and the count below 2^48 |
| Verdict.ReadLength | examples/eth_ipvx_l4/gen/parser.bpf.c:528-530 | the shift-or loop computes the little-endian value of the eight header bytes |
| Verdict.LengthRoundTrip | rust/pakeles-testkit/src/lib.rs:272-274 | the length header the testkit writes is the length the entry point reads |
| WholeBytes.PushBytes | docs/reference/ir-semantics.md:341-371 | pushing n bytes opens a region of n bytes unless it crosses the enclosing one, and keeps whole bytes |
| WholeBytes.PopBytes | docs/reference/ir-semantics.md:373-400 | popping succeeds exactly at the region's end |
| TlvItems.ParseIsScan | examples/tlv_items/tlv_items.py:44-59 | for every packet and budget the machine's outcome, reason, consumed bits and last item are those of a scan over bytes |
| TlvItems.AcceptsExactly | examples/tlv_items/tlv_items.py:47-59 | accept if and only if the packet starts with the encoding of a list of items that fits the budget |
| TlvItems.AcceptedReports | examples/tlv_items/tlv_items.py:45-48 | an accepted parse consumes the encoding and stores the last item, or none |
| TlvItems.SplitIsUnique | examples/tlv_items/tlv_items.py:30-42 | the split of a packet into items is unique |
| TlvItems.LastStartIsLast | examples/tlv_items/tlv_items.py:54-55 | the stored item is the encoding of the last item of the list |
| TlvItems.OnlyThreeReasons | examples/tlv_items/gen/parser.c:44-136 | "no matching select arm", "region out of bounds" and "region not exhausted" are unreachable |
| TlvItems.ReasonsNeverDiffer | examples/tlv_items/gen/parser.c:121-136 | so the emitted code gives the interpreter's reason on every packet |
| TlvItems.TwinsAgree | rust/pakeles/src/builder.rs:489-519 | tlv_mini, keyed on bits, and tlv_items, keyed on bytes, give the same result on every packet, down to the recorded headers |
| TlvItems.GeneratedParse | examples/tlv_items/gen/parser.c:10-148 | the generated parser accepts a buffer exactly when it starts with an encoding within the budget, consumes it and holds the last item |
| TlvCore.PushBlock | examples/tlv_items/gen/parser.c:40-61 | the push block for any cursor, length and stack pointer: it fails on a crossed region, an overflow or a full stack, else stores the end through the masked index |
| TlvCore.CaseItem | examples/tlv_items/gen/parser.c:75-119 | one item: the first read that does not fit decides reason and consumed bits, region before buffer, and the members are stored as they are read |
| TlvCore.ParseCore | examples/tlv_items/gen/parser.c:10-147 | the loop over the emitted cases, with their guards, masked indices and present flags: outcome, reason, consumed bits, present flags, total and, on accept, the stored item are the byte scan's |
| CountedItems.ExactOutcome | examples/counted_items/counted_items.py:1-12 | for every count, length and budget: accept with 8 * (1 + n) bits, "max depth exceeded", or "out of bounds" at the last whole byte, each under its exact condition |
| CountedItems.ParseCore | examples/counted_items/gen/parser.c:9-70 | the loop over the emitted cases: outcome, reason, consumed bits, present flags, count, last item and registers are the description's on every buffer, and no decrement takes 0 to 255 |
| TlsGrammar.ParseAnswers | benchmarks/industry/tls_clienthello/tls_clienthello.py:117-254 | for every packet and budget the machine accepts what a recursive recogniser does and then consumes the record; otherwise it rejects |
| TlsEncoding.AcceptsExactly | benchmarks/industry/tls_clienthello/tls_clienthello.py:117-254 | accept if and only if the packet starts with the encoding of a ClientHello: record, handshake, extension and name lengths nest exactly, session id at most 32 bytes, nonempty even cipher suites, nonempty compression methods, at most one server_name with one host_name, extensions optional, and 13 states, or 15 + 3 per other extension + 6 per server_name, within the budget; it then consumes exactly that record |
| TlsWalk.ParseIsScan | benchmarks/industry/tls_clienthello/tls_clienthello.py:117-254 | for every packet, budget and pop rule, outcome, reason and consumed bits are those of a scan over bytes: the eleven authored reasons by number, the first field that does not fit, its region checked before the packet, pushes that cross and pops that are not exhausted |
| TlsGenerated.DescriptionIsValid | benchmarks/industry/tls_clienthello/tls_clienthello.py:117-254 | the description is well formed for every budget, at the listed types, extracted instances and region depths |
| TlsGenerated.StackHeight | benchmarks/industry/tls_clienthello/tls_clienthello.py:205-254 | in every run the stack height on entry to a state is a function of the state, 0 to 5, so no pop underflows |
| TlsGenerated.RemainingIsExact | benchmarks/industry/tls_clienthello/tls_clienthello.py:190-200 | the description is made of whole bytes, so remaining() is exact in bytes wherever it is asked for |
| TlsGenerated.WholeRecordReasonsAgree | benchmarks/industry/tls_clienthello/tls_clienthello.py:117-135 | if the packet holds its whole record, or not even the record header, the emitted code gives the interpreter's reason |
| TlsGenerated.GeneratedParse | rust/pakeles/src/codegen/c.rs:509-606 | the generated TLS parser accepts a buffer exactly when it carries an encoded ClientHello within the budget, and consumes that record; on every buffer its outcome, reason and consumed bits are the scan's |
| FlowDissector.GraphProgresses | benchmarks/industry/linux_flow_dissector/linux_flow_dissector.py:283-421 | no two consecutive state entries both consume less than 32 bits, whatever tunnels and options are nested |
| FlowDissector.BudgetSuffices | benchmarks/industry/linux_flow_dissector/linux_flow_dissector.py:283-300 | 2 + 2 * (L / 32) state entries are enough for every packet of L bits: the depth reject is unreachable and a larger budget changes nothing |
| FlowWalk.ParseIsWalk | benchmarks/industry/linux_flow_dissector/linux_flow_dissector.py:287-424 | for every packet and budget, outcome, authored reason, consumed bits, visited headers, their positions and is_encap are those of a walk over the bits: tags, tunnels, GRE optional fields and IPv6 option chains in any nesting |
| Layouts.OptionsExact | benchmarks/academic/gibb_big_union/gibb_big_union.py:158-171 | a header ending in 4 * nibble - 20 bytes of options is read whole exactly when the nibble is at least 5 and that many words are there; below 5 the length wraps and the read fails |
| BigUnion.GraphIsAcyclic | benchmarks/academic/gibb_big_union/gibb_big_union.py:282-527 | ranks from 15 down to 0 fall along every transition of the 29 states |
| BigUnion.SixteenSuffice | benchmarks/academic/gibb_big_union/gibb_big_union.py:282-283 | with 16 states to enter, "max depth exceeded" is unreachable and a larger budget changes nothing |
| Walks.FieldRead | benchmarks/academic/gibb_big_union/gen/parser.c:46-110 | after any header, a key field has the value the packet spells at its bit offset and width |
| Walks.ChooseExact | docs/reference/ir-semantics.md:202-211 | a select of exact arms goes where the first arm that spells the keys goes |
| BigUnionWalk.ParseIsWalk | benchmarks/academic/gibb_big_union/gibb_big_union.py:282-527 | for every packet and budget, outcome, consumed bits, visited headers and their positions are those of a walk over the bits that knows only ethertypes, tag types, protocol and port numbers, header sizes and the bounds on tags, labels and tunnels |
| BigUnionWalk.AcceptsWholeHeaders | benchmarks/academic/gibb_big_union/gibb_big_union.py:10-18 | with 16 states to enter, a packet is accepted exactly when each layer the bits lead to is whole, options of an ihl or data_offset of at least 5 included; otherwise it is rejected out of bounds |
| BigUnion.OptionsTakeWords | benchmarks/academic/gibb_big_union/gen/parser.c:747-758 | in every run parse_ipv4 takes exactly 4 * ihl bytes and parse_tcp 4 * data_offset bytes, and a nibble below 5 always rejects |
| BigUnion.DescriptionIsValid | benchmarks/academic/gibb_big_union/gibb_big_union.py:282-527 | the description is well formed for every budget, lookahead included |
| BigUnionWalk.GeneratedParse | benchmarks/academic/gibb_big_union/gen/parser.c:46-1682 | for every buffer and budget the generated parser has the walk's outcome, reason and consumed bits and marks present exactly the headers the walk meets; with 16 states it accepts exactly the packets whose layers are all whole |
| EthIpvxL4.DescriptionIsValid | examples/eth_ipvx_l4/eth_ipvx_l4.py:88-116 | the description is well formed for every budget and names two reject codes |
| EthIpvxL4.ThreeSuffice | examples/eth_ipvx_l4/eth_ipvx_l4.py:88-89 | three states at most are entered |
| EthIpvxWalk.ParseIsWalk | examples/eth_ipvx_l4/eth_ipvx_l4.py:89-117 | for every packet and budget, outcome, authored reason, consumed bits, visited headers and their positions are those of a walk over the bits with literal ethertypes, protocol numbers, offsets and sizes |
| EthIpvxWalk.BothBackends | examples/eth_ipvx_l4/gen/parser.c:22-420 | on every packet within the eBPF buffer both emitted parsers compute the run's result, the plain struct shows that walk, and the verdict word decodes to it, reason by reason with the literal codes |
| QuicInitial.VarintIs | benchmarks/industry/quic_initial/quic_initial.py:140-170 | the high bits shifted over the tail are the decoding of section 16 of RFC 9000 in each of the four widths, and below 2^62 |
| QuicRuns.ParseIsDecoded | benchmarks/industry/quic_initial/quic_initial.py:180-305 | for every packet, with 11 states to enter, outcome, reason, consumed bits and, on accept, the three registers are those of a direct decoding of the bytes |
| QuicRuns.InitialExact | benchmarks/industry/quic_initial/quic_initial.py:180-305 | accepted as Initial exactly when the bytes start with an Initial packet (section 17.2.2 of RFC 9000), with its end, token length and payload length reported |
| QuicRuns.TokenIsWhole | benchmarks/industry/quic_initial/quic_initial.py:144-155 | the token takes as many bytes as its length says if and only if the length is below 2^61 |
| QuicRuns.WrappedTokenAccepted | benchmarks/industry/quic_initial/quic_initial.py:276-290 | sixteen bytes are accepted as an Initial packet with a token length of 2^61, 128 bits consumed |
| QuicGenerated.GeneratedParse | benchmarks/industry/quic_initial/gen/parser.c:41-532 | the generated QUIC parser returns outcome, reason, consumed bits and, on accept, the registers of the decoding for every buffer |
| Coverage.CoveredIntervals | python/src/pakeles/_states.py:159-179 | the merged intervals are sorted, disjoint and not adjacent, cover exactly what the arms match, and the count is the number of values covered; none exactly when an arm is masked |
| Coverage.CountIsCardinality | python/src/pakeles/_states.py:179-179 | the sum of the interval lengths is the cardinality of the covered set |
| Coverage.CountDecides | python/src/pakeles/_states.py:203-212 | the count reaches 2^width exactly when every key value matches an arm |
| Coverage.FirstMissing | python/src/pakeles/_states.py:145-156 | the want smallest uncovered values, or all of them if there are fewer, in at most want inner iterations whatever the width |
| Select.ExpansionMatches | python/src/pakeles/_states.py:230-266 | an authored key, exact, oneof, range or tuple, matches a key vector exactly when one of its expanded values does |
| Select.RangeAt | python/src/pakeles/_states.py:230-239 | element i of an expanded range is start + i * step, and there are as many as the step, in its direction, fits before stop |
| Select.RangeHolds | python/src/pakeles/_states.py:230-239 | an expanded range holds a value exactly when it lies in the half-open interval, in the direction of the step, a whole number of steps from the start |
| Select.PoolExact | python/src/pakeles/_states.py:230-239 | what each authored part expands to, by index, and the two ranges that are refused: an empty one, and more than 10,000 values at a step other than 1 |
| Select.ProductAt | python/src/pakeles/_states.py:255-265 | the product of pools lists every combination once, the last pool varying fastest |
| Select.ArmExact | python/src/pakeles/_states.py:242-266 | an arm key expands to its values in authored order, tuples to all combinations, and is refused exactly when a part is or some first parts have more than 10,000 combinations |
| Dispatch.OverlapIsExact | python/src/pakeles/_states.py:269-278 | for exact and nonempty range values the overlap test holds exactly when some key value hits both |
| Dispatch.BuildSelect | python/src/pakeles/_states.py:403-452 | a select is built exactly when its arms expand and every expanded value passes the overlap and limit checks, and it then holds the values in authored order |
| Dispatch.AtMostOneHit | python/src/pakeles/_states.py:281-292 | in an admitted mask-free select of one shape a key vector hits at most one value |
| Dispatch.OrderIndependent | python/src/pakeles/_states.py:429-445 | so first-match dispatch is the same in any order of the arms |
| Dispatch.ExhaustiveDefault | python/src/pakeles/_states.py:182-223 | an omitted default is licensed exactly when there is one key of known width, no masked or tuple value, and every key value matches an arm |
| Dispatch.SharedKeyNeedsMask | python/src/pakeles/_states.py:269-292 | of two admitted values of one shape that share a key, one has a mask |
| Dispatch.OrderFreeExactly | python/src/pakeles/_states.py:269-278 | for any values, masks included, dispatch is the same in every order of the arms exactly when no key hits two values with different targets |
| Dispatch.MaskBesideRange | python/src/pakeles/_states.py:269-271 | a mask beside a range that shares a key with it is admitted, and the order of the arms then decides |
| Dispatch.LoweredDispatch | docs/reference/ir-semantics.md:202-211 | the emitted arms, over any number of keys, dispatch as the authored ones do: first match, then the default |
| Dispatch.LoweredOrderIndependent | python/src/pakeles/_states.py:281-292 | an admitted mask-free select of one shape dispatches the same with its arms emitted in any order |
| Dispatch.SynthesisedDefaultUnreachable | python/src/pakeles/_states.py:185-189 | a synthesised default is never taken, whatever it is |
| Hoist.Resolver.Register | python/src/pakeles/_parser.py:104-113 | an inline state gets one name, kept in both dictionaries |
| Hoist.Resolver.Resolve | python/src/pakeles/_parser.py:97-114 | one target becomes a name or a terminal that stands for what it was, every inline state met on the way being settled; or it stops at a reached inline state whose name is taken |
| Hoist.Resolver.ResolveState | python/src/pakeles/_parser.py:116-125 | a state's arms and tail are replaced in place by what stands for them, or it stops at a clash |
| Hoist.Resolver.ResolveAll | python/src/pakeles/_parser.py:85-125 | the pass terminates on any shared or cyclic graph; it settles every entry exactly when it leaves no clash, that is no inline state, reached from the entries, whose name is already in the table; on success an inline state has its explicit name, else the name of an entry that holds it, two underscores and the label of that target, and on failure the clashing name is exactly such a one; names are given in the order of the walk |
| Hoist.NothingInlineLeft | python/src/pakeles/_parser.py:85-96 | after success no inline state is left, names are one per hoisted object, injective on them and distinct from the declared ones |
| Hoist.RunsAgree | python/src/pakeles/_parser.py:98-114 | runs before and after enter the same states one for one and end the same way, so depth counts agree |
| Hoist.Check | python/src/pakeles/_build.py:65-126 | its closedness part passes exactly when the start is declared and every state has a transition whose targets are declared or terminal |
| Hoist.CheckedNeverDangles | python/src/pakeles/_build.py:100-126 | once it passes, no run leaves the table |
| Codecs.HexRoundTrip | rust/pakeles/src/testvec.rs:156-171 | decoding an encoding gives the bytes back |
| Codecs.HexDigits | rust/pakeles/src/testvec.rs:156-171 | encoding writes the digits 0 to 9 and a to f, decoding reads either case and no other character |
| Codecs.HexSpells | rust/pakeles/src/testvec.rs:160-171 | hex decodes exactly when its length is even and every two characters are two digits or a plus sign and a digit, and then to the bytes they spell |
| Codecs.CanonicalIsUnique | rust/pakeles/src/testvec.rs:84-90 | the first bit_len bits determine a canonical bit string |
| Codecs.FromWire | rust/pakeles/src/testvec.rs:94-144 | refused exactly past the size limits; else the canonical form with the first bit_len bits of the data kept, and in this order a warning for hex that does not decode, for too few or too many bytes and for a set pad bit, each exactly when it applies |
| Codecs.RoundTrip | rust/pakeles/src/testvec.rs:146-154 | a canonical bit string within the limit comes back from its wire form unchanged and without a warning |
| Pcap.WritePcap | benchmarks/industry/dash_parser/factory/capture.py:36-40 | the file is the 24 literal header bytes and one record per packet; it fails exactly when a length does not fit 32 bits |
| Pcap.CapturedBytes | benchmarks/industry/dash_parser/factory/capture.py:50-52 | the reader takes a record's length from bytes 8 to 11 of its header, the lowest first |
| Pcap.RecordBytes | benchmarks/industry/dash_parser/factory/capture.py:36-40 | a record header is eight zero bytes and the length twice |
| Pcap.ReadPcap | benchmarks/industry/dash_parser/factory/capture.py:43-57 | the loop returns the complete records of any byte string |
| Pcap.ReadsWhole | benchmarks/industry/dash_parser/factory/capture.py:49-57 | the records read from the first n bytes of a written file are exactly the packets whose records are whole there |
| Pcap.PartialReads | benchmarks/industry/dash_parser/factory/capture.py:86-97 | polling a growing file: each read is a prefix of the packets and of every later read, and the whole file gives them all |
| Counterexamples.ReasonsDiffer | docs/reference/ir-semantics.md:384-400 | one state and an empty packet on which the interpreter says "out of bounds" and the emitted code "region not exhausted" |
| Counterexamples.SecondOccurrenceByteLoaded | rust/pakeles/src/codegen/mod.rs:316-352 | a well-formed program that extracts an instance twice and a packet of three bytes: the run stores 15 in the second occurrence, the byte load emitted for it 0 |
| Counterexamples.AcceptedButFaults | rust/pakeles/src/ir/validate.rs:412-425 | three programs the validator accepts, the document rejects under every typing, and every packet makes fault |

## Left out

- Serialisation of the IR, the CLI, files, processes and timeouts: input and output only.
- The symbolic engine, the z3 solver, the P4 and Lua generators, documentation and graph rendering: other consumers of the same IR.
- Agreement with other parsers (kernel, DPDK, Katran, rustls, quiche, DASH): their sources are not part of this model.
- The other gibb, kangaroo, switch, sai, katran and dpdk descriptions: further instances of the same theorems.
- Labels, display formats, annotations and reject severities: no rule reads them.
- An authored reason spelled like a built-in one shares its code in `reason_table`; authored reasons are numbers here and stand for distinct other spellings.
- The result struct is zeroed before a run; slots never stored read as absent here, so a partial header's stale zero bytes are not modelled.
- `Hoist.Check`: models the closedness part of `Assembly._check` only; the arity of arms, arm values against key widths, metadata fields and expression headers are checks of values the model's chains do not carry.
- Unhashable keys and the labels of `select`: Python-level input checks.
- Hex decoding of text that is not ASCII, where the slice by bytes panics: characters are single bytes here.
- `TlsWalk.ParseIsScan`: outcome, reason and consumed bits; where a run puts the host name is said by `Placement.HeadersArePlaced` for all headers alike.
- `QuicRuns.ParseIsDecoded`: assumes 11 states of budget; smaller budgets follow from `Budget.DepthIsMonotone`, which says they can only reject with "max depth exceeded".
- `BigUnion.SixteenSuffice`: gives no packet that needs all sixteen states.
- `ParseCore.Core.Run`: says nothing of inputs on which the interpreter faults; the emitted C reads zeros there.
- `Pcap.ReadPcap`: timestamps and original lengths are skipped by the reader and not modelled.
