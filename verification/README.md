# Spinel eBPF contracts in Dafny

A model of the parts of the repository whose correctness rests on more than one piece of code
agreeing, with proofs about every input, every run and every history.

- **C expressions** (`CSyntax`, `CAst`, `RingbufLeaks`). The precedence printer of the C tree, the
  expression grammar of section 6.5 of ISO/IEC 9899:2011 as its inverse, and the reserve/release
  scan with a semantics of runs to judge its reports by. The model is at token level: a cast is one
  token and raw text is an atom.
- **Ringbuf records** (`RecordLayout`, `RecordGate`, `RecordHistory`). The layout rule, the generated
  decoder, the append-only gate, and wire compatibility between any two releases of a history.
- **Declared expressions and predicates** (`TextScan`, `IntExpr`, `IntExprMeaning`, `IntExprAgree`,
  `Predicates`, `PredicateMeaning`, `PredicateWords`, `ReaderGate`, `TwoParsers`, `WhiteSpace`,
  `SharedNames`, `OneGrammar`). The generator's two recursive-descent parsers at character level, what
  their C and JSON outputs mean, what the words of a predicate mean by themselves, and the second parser
  of the predicate grammar.
- **Metric cardinality** (`MetricBounds`, `MetricSeries`, `MetricRuns`). The generator's series bounds
  and the runtime accumulator that relies on them.
- **Rings between two cores** (`SpscRing`, `AmpRing`). Every load and store is one step of an
  interleaving with 32-bit wrapping indices; memory is sequentially consistent, the barriers being given.
- **Line reader** (`LineReader`). One fill buffer shared by line reads, raw reads and close, over
  sockets that deliver in any chunks, with interruptions and failures.
- **WebSocket echo** (`WebSocket`). Framing of sections 5.2 and 5.3 of RFC 6455 and the server loop.
- **Contract tables** (`Bits`, `ProbeCtx`, `ProbeGate`, `ProbeAdmit`, `AttachDispatch`). Probe-context
  bitmaps, their gate and admission; prefix dispatch.

Code that changes things step by step is a method or a class proved against a specification
function; the laws are lemmas about those functions. `Common`, `Arith`, `Bits` and `TextScan` hold
shared datatypes and small facts.

Some promises do not hold as the repository words them. Each has its exact condition, with
the inputs at which it fails:

- an appended field reads as zero exactly when it ends past the old record (`AppendedFieldReadsZero`,
  `PaddingIsRead`);
- checking each step of a history checks all of it exactly when no capped property loses its cap on
  the way and no null presence rule becomes a bare row (`TransitiveExactlyWhen`, `CapacityGap`);
- the ring is a FIFO exactly when its capacity divides 2^32 (`FifoExactlyWhenDivides`,
  `EventRingExactlyWhen`, `OverwriteAtWrap`);
- the published tree of an `int_expr` has the declared value exactly when it names no struct field, no
  literal has a leading zero and none is 2^63 or more; the printed C has it under every meaning of the
  operators exactly when it reads no derivation, because a derivation is read through a conversion to
  `uint64_t` (`ReadingsAgree`, `AlwaysAgreesExactly`, `OctalLiteral`, `TooLarge`, `StructIsAccepted`,
  `ConversionShows`);
- that tree is published exactly when no derivation the text reads is called `json` or declared after
  one that is (`PublishedExactlyWhen`, `JsonNameRefused`);
- the emitted condition of a predicate is valid C exactly when it names no struct field and no compared
  byte is a quote, a backslash, a line break or outside ASCII; it then agrees with the published tree,
  test by test, exactly when the arrays it looks into have elements of one byte
  (`PredicateReadingsAgree`, `PartsAgreeExactly`, `StructTestAccepted`, `QuoteAccepted`,
  `WideArrayAccepted`);
- the reader gate passes a generated predicate exactly when no derivation shadows the field of a byte
  comparison and no byte is a newline (`GeneratedPasses`, `ShadowedByte`, `NewlineByte`), and a generated
  refusal exactly when its reason is long enough once stripped (`RefusalPasses`, `BlankReason`);
- over all texts that name no property with two meanings the two sides part exactly on refusals that
  edge white space decides and on predicates with white space other than blanks or a newline byte, but
  not both (`SameGrammar`, `GateIsGenerator`, `BlanksBefore`, `NewlineBefore`);
- the line reader loses no byte of a connection exactly when every line read of another descriptor and
  every reset finds none of its bytes buffered and no line read of its own meets a fault with part of a
  line read (`NothingLostExactlyWhen`, `SwitchLosesBytes`, `FaultLosesBytes`);
- a WebSocket frame decodes to itself exactly below 2^32 bytes of payload (`RoundTripExactlyBelow`);
- a leak report is real exactly when the tree writes no release of the name that the scan does not
  recognise (`LeakIsRealExactlyWhen`, `CastHidesRelease`, `RawHidesRelease`); a leak is always reported
  (`LeakIsReported`);
- a probe-context bitmap fits its four words exactly when the 256th field is not listed
  (`BitmapFitsExactly`, `LastFieldHasNoBit`); the schema check admits 256 fields and ids start at one;
- a shadowed attach row is unreachable exactly unless only the shorter row asks for a separator and
  the longer prefix adds none (`ReachedExactlyWhen`, `SeparatorReaches`).

## Model

| member | source | states |
|---|---|---|
| `CAst.TableMatchesGrammar` | src/spinel_ebpf/c_ast.rb:33-45 | the precedence table orders any two operators as the levels of the C grammar do |
| `CAst.OperandRoundTrip` | src/spinel_ebpf/c_ast.rb:354-364 | an operand parenthesised below a level parses back at that level, before any tokens that do not continue it |
| `CAst.BinopRoundTrip` | src/spinel_ebpf/c_ast.rb:342-350 | a printed binary operation parses, left associatively, to its two operands and nothing else |
| `CAst.ExprRoundTrip` | src/spinel_ebpf/c_ast.rb:272-285 | a printed expression followed by anything that cannot continue it parses to its tree and leaves the rest |
| `CAst.ArgsRoundTrip` | src/spinel_ebpf/c_ast.rb:278 | printed call arguments parse back, in order, up to the closing parenthesis |
| `CAst.RoundTrip` | src/spinel_ebpf/c_ast.rb:272-285 | for every tree, the C grammar reads the printed tokens as that tree with explicit parentheses erased |
| `CAst.Minimal` | src/spinel_ebpf/c_ast.rb:342-364 | no token sequence that parses to a parenthesis-free tree is shorter than the printed one |
| `RingbufLeaks.LeakScan.Walk` | src/spinel_ebpf/c_ast.rb:479-489 | one walk appends exactly the reserved and the released names of the tree, in order, at any depth of blocks and branches |
| `RingbufLeaks.Leaks` | src/spinel_ebpf/c_ast.rb:460-475 | a name is returned, once, if and only if some statement of the tree declares it by a reserve and no submit or discard statement has it as the token of its first argument |
| `RingbufLeaks.ReportedExactly` | src/spinel_ebpf/c_ast.rb:460-498 | the two collected lists against the tree itself: a name is reported if and only if a statement at any depth declares it, stars stripped, and none hands it back |
| `RingbufLeaks.LeakIsReported` | src/spinel_ebpf/c_ast.rb:460-475 | if raw text reserves nothing, a name that some run reserves and no statement of the tree hands back is reported |
| `RingbufLeaks.RunEvents` | src/spinel_ebpf/c_ast.rb:460-475 | whatever a run reserves or gives back, under any choice of branches and of the runs of raw text, is written in the tree outside what a return cuts off |
| `RingbufLeaks.NeverGivenBack` | src/spinel_ebpf/c_ast.rb:460-475 | a name the tree writes no release of is released by no run, and every run that reserves it ends holding it |
| `RingbufLeaks.LeakIsReal` | src/spinel_ebpf/c_ast.rb:460-475 | on trees whose releases name the local directly, as an identifier or as a token emitted verbatim, every reported name is held at the end of every run that reserves it |
| `RingbufLeaks.Reach` | src/spinel_ebpf/c_ast.rb:460-489 | every event written outside what a return cuts off happens under some choice of branches |
| `RingbufLeaks.ReachedExactly` | src/spinel_ebpf/c_ast.rb:460-489 | an event happens in some run if and only if it is written outside what a return cuts off, where raw statements may return on some of their runs |
| `RingbufLeaks.LeakIsRealExactlyWhen` | src/spinel_ebpf/c_ast.rb:460-475 | a reported name is released by no run if and only if the tree writes no release of it, and is reserved by some run if and only if a return does not cut its declaration off |
| `RingbufLeaks.EmitTreeIsClean` | src/spinel_ebpf/codegen_bpf.rb:8886-8900 | the scope built for spnl_emit is never reported, and past its null test it gives back exactly what it reserved |
| `RingbufLeaks.RawHidesRelease` | src/spinel_ebpf/c_ast.rb:491-498 | after a reservation a raw statement is never recognised: the name is reported, and given back exactly when the raw text gives it back |
| `RingbufLeaks.CastHidesRelease` | src/spinel_ebpf/c_ast.rb:491-498 | a release through a cast is not recognised: the report on that tree is wrong on every run |
| `RecordLayout.LayoutFields` | tools/gen_record_mirror.c:147-159 | the loop computes each offset and the total, and refuses a non-positive size or alignment |
| `RecordLayout.LayoutIsCompilerLayout` | tools/gen_record_mirror.c:144-159 | those offsets are the least aligned ones after the member before, arrays with all their elements, and the total the least multiple of the widest alignment, as a C compiler lays out the struct |
| `RecordLayout.HeaderIsStruct` | include/spnl/types.h:25-30 | the size and alignment used for the event header are those of its struct laid out by the same rule |
| `RecordLayout.AppendKeepsLayout` | tools/gen_record_mirror.c:147-159 | appending fields moves no earlier field |
| `RecordLayout.FieldsInRecord` | tools/gen_record_mirror.c:147-159 | every field lies inside the record, after the one before it |
| `RecordLayout.TotalGrows` | tools/gen_record_mirror.c:147-159 | appending fields never shortens the record |
| `RecordLayout.RequiredOf` | tools/gen_record_mirror.c:165-174 | the required length is the end of the field the schema names or else the whole record, and a name the record does not have is refused |
| `RecordLayout.Unpack` | tools/gen_record_mirror.c:1846-1876 | the decoder refuses exactly the records that are too short; otherwise byte j of each mirror field is byte offset + j of the record, zero where an optional field does not fit, and zero in the last byte of a char array |
| `RecordLayout.UnpackField` | tools/gen_record_mirror.c:1855-1875 | an optional field is copied, byte by byte, only when the record reaches its end; of a char array the last byte alone is cleared |
| `RecordLayout.DecodedIsWritten` | tools/gen_record_mirror.c:1855-1875 | the decoded field byte by byte: the written byte, zero for a field the record does not reach, and zero in the last byte of a char array and nowhere else |
| `RecordLayout.AcceptsExactly` | tools/gen_record_mirror.c:1846-1850 | a record is accepted if and only if it reaches the end of the named field, or of the struct where none is named |
| `RecordGate.Violations` | tools/record_gate.rb:178-367 | the gate is silent if and only if nothing published is missing or changed |
| `RecordGate.FieldViolations` | tools/record_gate.rb:197-225 | no complaint about fields if and only if the old fields are the leading new ones, unchanged |
| `RecordGate.EgressViolations` | tools/record_gate.rb:238-275 | no complaint if and only if the egress binding, its attributes and their presence rules (null ones included, bare old rows excepted), and its enrichers are kept |
| `RecordGate.ResidueViolations` | tools/record_gate.rb:277-291 | no complaint if and only if no declared derivation becomes one a reader must write |
| `RecordGate.MetricViolations` | tools/record_gate.rb:293-320 | no complaint if and only if every metric and each of its labels is kept |
| `RecordGate.ConsumerViolations` | tools/record_gate.rb:322-364 | no complaint if and only if the typed consumer and its properties are kept, no cap shrinks and no kernel filter appears |
| `RecordGate.FieldChangeSeen` | tools/record_gate.rb:209-225 | one field replaced: silence if and only if offset, size, type and count are the same and an exposure that was published is too |
| `RecordGate.AttrChangeSeen` | tools/record_gate.rb:252-266 | one attribute row replaced: silence if and only if the old row was bare or its presence rule is the same |
| `RecordGate.MetricChangeSeen` | tools/record_gate.rb:299-306 | one metric replaced: silence if and only if name, kind, unit and value source are the same |
| `RecordGate.LabelChangeSeen` | tools/record_gate.rb:307-319 | one label replaced: silence if and only if its source is the same |
| `RecordGate.PropertyChangeSeen` | tools/record_gate.rb:277-362 | one property replaced: silence if and only if exposure, kind and type are the same, no kernel filter appears, no cap shrinks and a declared residue stays declared |
| `RecordGate.PlainChangeSeen` | tools/record_gate.rb:191-330 | the terms with one value: silence if and only if struct, map, push function, span name and kind, timing form, drop rule and consumer functions are the same and the required length has not grown |
| `RecordGate.RemovalSeen` | tools/record_gate.rb:197-364 | after a silent step every producer, field, attribute, enricher, metric, label and property still has its name |
| `RecordGate.SilentIsPreorder` | tools/record_gate.rb:178-367 | on contracts as the generator projects them silence is reflexive and transitive |
| `RecordGate.TransitiveExactlyWhen` | tools/record_gate.rb:252-362 | for a silent step, whatever is silent after the new contract is silent after the old one if and only if every capped property stays capped and no null presence rule becomes a bare row |
| `RecordGate.StepsReachBaseline` | tools/record_gate.rb:178-367 | checking every step of a history is checking against any earlier baseline |
| `RecordGate.CapacityGap` | tools/record_gate.rb:357-362 | three contracts with unique names: two silent steps through a missing cap shrink it, and the gate would have refused the step made at once |
| `RecordHistory.KeptExtends` | tools/record_gate.rb:95-108 | gate silence on the projection means the new schema extends the old one field by field |
| `RecordHistory.CompatiblePair` | tools/gen_record_mirror.c:1846-1876 | each of two versions accepts the records of the other and decodes the shared fields alike |
| `RecordHistory.WireCompatible` | tools/record_gate.rb:178-232 | a record of any release is accepted by any other release, and each byte of each shared field decodes to the byte written, the last byte of a char array excepted, which is zero |
| `RecordHistory.PublishedStays` | tools/record_gate.rb:178-367 | of two releases of a gated history the later still has the struct, map, producers, egress, metrics and consumer of the earlier, and its fields in front with their types, counts and published exposures |
| `RecordHistory.AppendedFieldReadsZero` | tools/gen_record_mirror.c:1853-1866 | an appended field reads as zero from every old record if and only if it ends past the old record |
| `RecordHistory.PaddingIsRead` | tools/gen_record_mirror.c:1860-1863 | a field appended inside the old tail padding: both releases compile, the gate is silent on the step, and the field reads the padding |
| `IntExpr.ExprCur.Ws` | tools/gen_record_mirror.c:568 | the cursor moves past blanks and nothing else |
| `IntExpr.ExprCur.EatChar` | tools/gen_record_mirror.c:570-575 | a token is taken exactly when it is next after blanks |
| `IntExpr.ExprCur.Binary` | tools/gen_record_mirror.c:683-738 | one rule of the precedence climb returns the output for the tree the grammar gives, and the same rest |
| `IntExpr.ExprCur.Operators` | tools/gen_record_mirror.c:683-738 | the loop over same-level operators builds the left-associated output |
| `IntExpr.ExprCur.Prim` | tools/gen_record_mirror.c:603-680 | every primary form, its refusals included, agrees with the grammar |
| `IntExpr.ExprCur.DerivedName` | tools/gen_record_mirror.c:625-661 | a derivation is read only if declared, of type int, not itself and not later |
| `IntExpr.IntExprOut` | tools/gen_record_mirror.c:741-750 | the parse of a whole text emits C or JSON for its tree, or refuses, in step with the grammar |
| `IntExpr.FieldReadExactly` | tools/gen_record_mirror.c:669-679 | a name alone is accepted if and only if the first field of that name is no array |
| `IntExpr.DerivedReadExactly` | tools/gen_record_mirror.c:627-661 | derived(name) is accepted if and only if the first derivation of that name is an int and none of that name is the one being generated or declared after it |
| `IntExprMeaning.EmittedIsPrimary` | tools/gen_record_mirror.c:603-746 | every piece of emitted C is one primary expression of the C grammar, whatever follows it |
| `IntExprMeaning.EmittedReadsBack` | tools/gen_record_mirror.c:603-746 | a C compiler reads the emitted text as the tree that was parsed |
| `IntExprMeaning.DeclaredReadsAsC` | tools/gen_record_mirror.c:603-746 | the declared text, lexed and parsed as C, is the expression the generator took it for |
| `IntExprAgree.ReadingsAgree` | tools/gen_record_mirror.c:603-746 | under every interpretation: the emitted C has a value iff every field and literal is C, the tree iff it can be read, and the tree has the declared value iff both; the C has it under every interpretation iff no derivation is read |
| `IntExprAgree.OctalLiteral` | tools/gen_record_mirror.c:662-668 | a literal with a leading zero is accepted, is octal in C and is no JSON number |
| `IntExprAgree.TooLarge` | tools/gen_record_mirror.c:662-668 | every decimal literal from 2^63 on is accepted, is a number in the tree and is no constant in C |
| `IntExprAgree.HugeLiteral` | tools/gen_record_mirror.c:662-668 | 10^19 is such a literal |
| `IntExprAgree.AlwaysAgreesExactly` | tools/gen_record_mirror.c:658-660 | the conversion to uint64_t around a derivation leaves the value unchanged under every interpretation if and only if the expression reads none |
| `IntExprAgree.ConversionShows` | tools/gen_record_mirror.c:658-660 | an accepted text that shifts a negative derivation has one value as a published tree and another as emitted C |
| `IntExprAgree.UnsignedAbsorbs` | src/codegen_c/record_schema.h:1503-1504 | an unsigned field on the left of a sum, difference or product absorbs the conversion: tree and C agree in 64-bit arithmetic |
| `IntExprAgree.StructIsAccepted` | src/codegen_c/record_schema.h:807 | the record header, a struct, is accepted as an operand and what is emitted is not C |
| `IntExprAgree.PublishedExactlyWhen` | tools/gen_record_mirror.c:1923-1929 | what the header mode accepted is published, with the same parse, if and only if no derivation it reads is called json or declared after one that is |
| `IntExprAgree.JsonNameRefused` | tools/gen_record_mirror.c:1923-1929 | a reference to a derivation called json is accepted by the header mode and refused when the tree is published |
| `IntExprAgree.RowReadsEarlierRows` | tools/gen_record_mirror.c:640-661 | in an accepted table every derived() reference points to a strictly earlier row |
| `IntExprAgree.HelpersAreDetermined` | tools/gen_record_mirror.c:1023-1043 | helpers that return their row converted to long, and are read converted to uint64_t, have the values well-founded evaluation by row gives |
| `Predicates.PredOneAt` | tools/gen_record_mirror.c:766-880 | one predicate is parsed from the cursor with the output and the rest the grammar gives |
| `Predicates.OperandsAt` | tools/gen_record_mirror.c:779-787 | the operand loop collects and joins the operands in order |
| `Predicates.BothAt` | tools/gen_record_mirror.c:772-793 | all() and any() need two operands and a closing parenthesis |
| `Predicates.ByteEqArgs` | tools/gen_record_mirror.c:795-825 | byte_eq takes a byte array field, an index inside it and a quoted character |
| `Predicates.TestArg` | tools/gen_record_mirror.c:827-878 | a test takes a field or a derivation, not a name that is both, of the kind the word asks for |
| `Predicates.PredText` | tools/gen_record_mirror.c:882-900 | a text is a condition, a refusal with a long enough reason, or refused |
| `PredicateWords.OneReads` | tools/gen_record_mirror.c:766-880 | every predicate the parser accepts reads, by a reader that knows only words, quotes and calls, as the term with the words of that predicate |
| `PredicateWords.DenotedMeans` | tools/gen_record_mirror.c:766-880 | the published tree of a predicate holds of a record exactly when its words do |
| `PredicateWords.WordsArePublished` | tools/gen_record_mirror.c:766-900 | for every accepted text: always and never, all and any, byte_eq, and whether a field or derivation is empty or zero mean over the record what the published tree says |
| `PredicateMeaning.PredReadsBack` | tools/gen_record_mirror.c:766-880 | a C compiler reads the emitted condition as the predicate that was parsed |
| `PredicateMeaning.ConditionIsPublished` | tools/gen_record_mirror.c:766-880 | the condition has a value exactly when no field is a struct and its literals are C, and, read element by element, is true of a record exactly when the published tree holds of its bytes, if array elements are bytes |
| `PredicateMeaning.PartsAgreeExactly` | tools/gen_record_mirror.c:795-861 | a condition that is C agrees with its tree, test by test and over all records, if and only if every array it looks into has elements of one byte |
| `PredicateMeaning.PredicateReadingsAgree` | tools/gen_record_mirror.c:882-900 | for every accepted text, when the emitted C is valid, that it then agrees with the published tree where arrays are of bytes, and that test by test it agrees only there |
| `PredicateMeaning.StructTestAccepted` | tools/gen_record_mirror.c:851-861 | a test of the record header is accepted and what is emitted is not C |
| `PredicateMeaning.QuoteAccepted` | tools/gen_record_mirror.c:812-824 | a quote compared in byte_eq is accepted and what is emitted is not C |
| `PredicateMeaning.WideArrayAccepted` | tools/gen_record_mirror.c:806-824 | a byte comparison in an array of 32-bit elements is accepted, and a record on which the tree holds and the condition is false |
| `ReaderGate.Properties` | tools/reader_gate.rb:132-142 | the vocabulary is every field, overwritten by every derivation of the same name |
| `ReaderGate.Gate.PredOneIn` | tools/reader_gate.rb:82-129 | one predicate is consumed and exactly its complaints are added |
| `ReaderGate.Gate.OperandLoop` | tools/reader_gate.rb:90-96 | the operand loop consumes one operand per comma and adds their complaints in order |
| `ReaderGate.Gate.OperandsIn` | tools/reader_gate.rb:87-103 | all() and any() complain of fewer than two operands and of a missing parenthesis |
| `ReaderGate.Gate.ParseRule` | tools/reader_gate.rb:61-79 | a whole rule adds exactly its complaints |
| `TwoParsers.SameOne` | tools/reader_gate.rb:82-129 | on every predicate the generator accepts, the gate complains exactly of a shadowed byte comparison and of one with a newline, and without the latter leaves the same text |
| `TwoParsers.OneCut` | tools/gen_record_mirror.c:766-880 | a parse looks only at the text it consumes: cut text after it and it still parses, to the same predicate |
| `TwoParsers.OneEnds` | tools/gen_record_mirror.c:766-880 | what a parse leaves is a proper suffix, and what it took does not end in white space |
| `OneGrammar.OneMore` | tools/gen_record_mirror.c:766-880 | text added after a predicate does not change it |
| `OneGrammar.BackOne` | tools/reader_gate.rb:82-129 | a predicate the gate reads without complaint, in text whose white space is blanks and quoted bytes, the generator parses, leaving the same text |
| `OneGrammar.GeneratedPasses` | tools/reader_gate.rb:61-142 | a predicate the generator accepts passes the gate if and only if no derivation shadows the field of a byte comparison and no byte is a newline |
| `OneGrammar.RefusalPasses` | tools/reader_gate.rb:67-76 | an accepted refusal passes if and only if its stripped reason has twenty characters, hence always without edge white space |
| `OneGrammar.ShadowedByte` | tools/reader_gate.rb:108-118 | a generated byte comparison in a field that a derivation shadows draws a complaint |
| `OneGrammar.BlankReason` | tools/reader_gate.rb:67-76 | a refusal with twenty blanks for a reason is accepted by the generator and not by the gate |
| `OneGrammar.BlanksBefore` | tools/reader_gate.rb:61-76 | blanks before a refusal pass the gate and are refused by the generator |
| `WhiteSpace.GateSeesBlanks` | tools/reader_gate.rb:61-129 | a predicate draws the same complaints with its white space made blank |
| `WhiteSpace.AcceptedIsQuiet` | tools/gen_record_mirror.c:568-575 | a predicate the generator accepts has no white space but blanks and quoted bytes |
| `SharedNames.SameProps` | tools/reader_gate.rb:132-142 | dropping the fields that a derivation takes over changes nothing the gate looks up |
| `OneGrammar.SamePredicates` | tools/reader_gate.rb:61-142 | for every text that is no refusal and names no property with two meanings: the gate passes it iff it is a predicate once its white space is blank and no byte is a newline, the generator accepts it iff it is one as it stands |
| `OneGrammar.GateIsGenerator` | tools/reader_gate.rb:61-142 | on every text that is no refusal the gate is the generator, for the channel without its shadowed fields and the text with its white space made blank, except that it takes no newline as a byte |
| `OneGrammar.SameRefusals` | tools/reader_gate.rb:67-76 | what each side asks of a refusal, both directions and any white space: the gate strips the text and the reason, the generator strips neither |
| `OneGrammar.SameGrammar` | tools/reader_gate.rb:61-142 | for every text that names no property with two meanings, the two sides agree if and only if it is no refusal that edge white space decides and no predicate with either odd white space or a newline byte |
| `OneGrammar.NewlineBefore` | tools/reader_gate.rb:61-62 | a newline before always passes the gate and is refused by the generator |
| `OneGrammar.NewlineByte` | tools/reader_gate.rb:105-113 | a byte comparison with a newline is generated and draws a complaint |
| `MetricBounds.CheckValmap` | tools/gen_record_mirror.c:346-377 | a value map is refused if and only if it lacks an id, authority, unknown rendering or values, is not architecture-invariant, leaves a name empty, repeats a code or a name, or has a BTF mode that is unknown or without anchor |
| `MetricBounds.NamedCode` | tools/gen_record_mirror.c:406-427 | in a checked map every name is what its own code renders as |
| `MetricBounds.PermittedSetOk` | tools/gen_record_mirror.c:1232-1249 | a permitted set passes if and only if it has no empty or repeated value and a fallback outside it |
| `MetricBounds.BoundLabel` | tools/gen_record_mirror.c:1215-1276 | a label is bounded by its permitted set or its closed map, or refused |
| `MetricBounds.SetLabelExactly` | tools/gen_record_mirror.c:1215-1250 | a label with a permitted set is bounded, by one more than the set, if and only if it is named, stable, reads an exposed field or a derivation, and the set and fallback are as required |
| `MetricBounds.MapLabelExactly` | tools/gen_record_mirror.c:1215-1275 | a label without one is bounded, by one more than the map, if and only if the first derivation of its source names codes, no exposed field hides it, no fallback is given and the map prints no number |
| `MetricBounds.UnboundLabelRefused` | tools/gen_record_mirror.c:1252-1262 | without a permitted set, a label that no derivation with a known map feeds is refused |
| `MetricBounds.LabelBoundCounts` | tools/gen_record_mirror.c:1204-1276 | the bound is at least the number of values the label can be emitted as, and exactly that for a permitted set |
| `MetricBounds.ClosedMapExact` | tools/gen_record_mirror.c:1259-1275 | for a closed map the bound is exact if and only if the unnamed rendering is not one of the names |
| `MetricBounds.BoundMetric` | tools/gen_record_mirror.c:1281-1288 | the loop computes the saturating product, or refuses with its labels |
| `MetricBounds.SaturatesExactly` | tools/gen_record_mirror.c:1281-1288 | the saturating product is the true product capped at a million |
| `MetricBounds.AddChannel` | tools/gen_record_mirror.c:2343-2345 | one channel adds the bounds of its metrics, in order |
| `MetricBounds.CheckTotal` | tools/gen_record_mirror.c:2339-2366 | the schemas pass if and only if every label is bounded and the bounds sum to at most 256 |
| `MetricBounds.AcceptedIsExact` | tools/gen_record_mirror.c:2339-2366 | in an accepted table every bound is the exact product: saturation was never reached |
| `MetricBounds.TuplesWithinProduct` | tools/gen_record_mirror.c:1278-1288 | the label tuples a metric can be emitted with number at most the product, and exactly that when every label has a permitted set |
| `MetricBounds.ValueWidth` | tools/gen_record_mirror.c:1548-1578 | the emitted width is the least that holds every permitted value, fallback and declared cap |
| `MetricSeries.Accumulator.ProjectOne` | src/runtime/otlp/otlp_recmetric.c:62-68 | the raw value is kept where the label has no set or the set has the value; any other becomes the fallback |
| `MetricSeries.Accumulator.Intern` | src/runtime/otlp/otlp_recmetric.c:70-101 | the first series with these values is found, or one is added, or the array is full and nothing changes |
| `MetricSeries.Accumulator.Tallied` | src/runtime/otlp/otlp_recmetric.c:117-126 | one observation is added to one series: its count, its bucket and its sum |
| `MetricSeries.Accumulator.Take` | src/runtime/otlp/otlp_recmetric.c:103-126 | a call changes the array exactly as the specification of one observation does |
| `MetricSeries.ProjectIsOutput` | src/runtime/otlp/otlp_recmetric.c:58-68 | whatever a record holds, a label is emitted as one of its bounded outputs, short enough to be stored whole |
| `MetricRuns.MetricWithinBound` | tools/gen_record_mirror.c:1281-1288 | for every run of records a metric produces at most the exact product of its label bounds in distinct tuples |
| `MetricRuns.RoomForKey` | src/runtime/otlp/otlp_recmetric.c:79-91 | a label tuple not yet in the array always finds room |
| `MetricRuns.RunIsExact` | src/runtime/otlp/otlp_recmetric.c:70-126 | after every run there are at most the declared total of series, itself at most 256; every observation matches exactly one, label by label the raw value if the set has it and the fallback if not; and each series holds the count, sum and buckets of the observations that match it |
| `SpscRing.InjectiveExactlyWhenDivides` | include/spnl/amp_ring.h:42-43 | the slot of an index is injective on every window of capacity consecutive wrapping indices if and only if the capacity divides 2^32 |
| `SpscRing.Backlog` | include/spnl/amp_ring.h:67-70 | the 32-bit difference is the true backlog whenever that is below 2^32 |
| `SpscRing.NextInv` | include/spnl/amp_ring.h:66-78 | every step of either side keeps the ring invariant: no unread slot is overwritten |
| `SpscRing.RunInv` | examples/amp_m7_firmware/a55_drain.c:50-64 | the invariant holds after every interleaving |
| `SpscRing.NextRefinesFifo` | include/spnl/amp_ring.h:66-78 | every step is an append to, a removal from, or no change of an abstract queue |
| `SpscRing.RefusedMeansFull` | include/spnl/amp_ring.h:69 | a refused emit means the unacknowledged records fill the ring |
| `SpscRing.FifoInEveryInterleaving` | examples/amp_m7_firmware/a55_drain.c:50-64 | in every interleaving the printed records are an in-order, duplicate-free prefix of the accepted ones |
| `SpscRing.OverwriteAtWrap` | include/spnl/amp_ring.h:66-78 | if the capacity does not divide 2^32, then for any two records the consumer can tell apart some run of calls with just these two prints one that was overwritten unread |
| `SpscRing.FifoExactlyWhenDivides` | include/spnl/amp_ring.h:66-78 | for any set of records two of which the consumer can tell apart, the ring is a FIFO in every interleaving if and only if its capacity divides 2^32 |
| `AmpRing.Ring.InitEventRing` | include/spnl/amp_ring.h:51-59 | initialisation leaves an empty, well-formed ring |
| `AmpRing.Ring.Emit` | include/spnl/amp_ring.h:66-78 | an emit appends one record image to the queue, or changes nothing when the ring is full |
| `AmpRing.Ring.DrainOnce` | examples/amp_m7_firmware/a55_drain.c:50-64 | one turn prints every queued record once and in order and acknowledges them all |
| `AmpRing.Ring.InitCmdRing` | include/spnl/amp_abi_imx95m7.h:246-254 | initialisation publishes the magic word over an empty ring |
| `AmpRing.Ring.Push` | examples/amp_m7_firmware/a55_cmd.c:58-88 | a push appends the record, copied word by word with the index last, or changes nothing |
| `AmpRing.BuildImage` | examples/amp_m7_firmware/a55_cmd.c:67-79 | the record image carries type, version, length, ivars size and every byte of the blob, and zero elsewhere |
| `AmpRing.CallAlone` | include/spnl/amp_ring.h:66-78 | a call with nobody else running is one run of the interleaving machine |
| `AmpRing.EventRingExactlyWhen` | include/spnl/amp_ring.h:66-78 | with the records the event producer writes and the words the drain loads, what is printed is what was accepted in every interleaving if and only if the capacity divides 2^32 |
| `AmpRing.EventRunPrints` | include/spnl/amp_ring.h:66-78 | in every interleaving, where the capacity divides 2^32, the n-th print is value, timestamp and type 256 of the n-th accepted emit, under index n |
| `AmpRing.CommandRingIsFifo` | include/spnl/amp_abi_imx95m7.h:257-264 | the command ring is a FIFO in every interleaving |
| `LineReader.DeliverKeepsStream` | src/runtime/sp_net_ext.c:118-130 | whatever sizes a socket delivers in, its byte stream is unchanged |
| `LineReader.LineIsSplit` | src/runtime/sp_net_ext.c:109-141 | a line read is the first line of a pure split of the pending stream, and leaves the split's rest |
| `LineReader.OthersKeepBytes` | src/runtime/sp_net_ext.c:112-116 | one line read leaves the pending bytes of another descriptor unchanged if and only if none of them are in the buffer |
| `LineReader.LinesAreSplits` | src/runtime/sp_net_ext.c:109-141 | any number of line reads is the split of the stream into that many lines |
| `LineReader.ChunkingIndependent` | src/runtime/sp_net_ext.c:109-141 | two deliveries of the same stream give the same lines |
| `LineReader.SplitCases` | src/runtime/sp_net_ext.c:132-140 | a line that ends in CR and LF loses those two bytes and no more, even if it ends in CR itself; one that ends in LF loses it; the end of the stream takes nothing; at 65535 bytes the line is cut |
| `LineReader.LineRead` | src/runtime/sp_net_ext.c:109-141 | the same of a line read, whatever part is buffered and however the rest is delivered |
| `LineReader.RawSize` | src/runtime/sp_net_ext.c:154-163 | a raw read returns at most what was asked, 65535 by default, and exactly the buffered bytes that fit when there are any |
| `LineReader.RestSize` | src/runtime/sp_net_ext.c:100-107 | the remainder is a front of the buffer of its own descriptor, all of it unless a smaller positive limit is given |
| `LineReader.SplitAccounts` | src/runtime/sp_net_ext.c:109-141 | a line and its terminator are the bytes taken from the stream |
| `LineReader.RecvAccounts` | src/runtime/sp_net_ext.c:154-163 | a raw read returns the next bytes of the stream, buffered ones first, and leaves the rest |
| `LineReader.OwnReadTakes` | src/runtime/sp_net_ext.c:100-163 | a read of any kind takes a prefix of what is pending on its descriptor and leaves the rest |
| `LineReader.OtherCallKeeps` | src/runtime/sp_net_ext.c:89-152 | any other call leaves the pending bytes of a connection alone, unless it is a switching line read or a reset that finds some buffered; then exactly those are gone |
| `LineReader.TakenExactlyWhen` | src/runtime/sp_net_ext.c:89-163 | after every run, for every open connection, everything sent, faults included, was taken by its own reads in order or is pending, if and only if no switching line read and no reset found its bytes buffered |
| `LineReader.NothingLostExactlyWhen` | src/runtime/sp_net_ext.c:89-163 | after every run, for every open connection, the bytes sent are the bytes returned, with line terminators, followed by the pending ones, if and only if besides no line read of its own met a fault with part of a line read |
| `LineReader.FaultLosesBytes` | src/runtime/sp_net_ext.c:119-127 | one byte, a failing receive and a line read: the byte is neither returned nor pending, and nothing was dropped |
| `LineReader.SwitchLosesBytes` | src/runtime/sp_net_ext.c:112-116 | two lines in one chunk, a read of the first, a line read of another descriptor: the second line is neither returned nor pending |
| `LineReader.ReturnsWhatItTakes` | src/runtime/sp_net_ext.c:109-163 | any read returns the bytes it takes, with a line its terminator, unless it is a line read that a fault cuts short, which returns none |
| `LineReader.AlwaysOwned` | src/runtime/sp_net_ext.c:89-95 | after every run of calls the buffered bytes belong to the open connection they were read from |
| `LineReader.NoBytesCross` | src/runtime/sp_net_ext.c:149-152 | over every run that closes with the reset, a byte returned for a connection was received on it, even when the descriptor is reused |
| `LineReader.PlainCloseLeaks` | src/runtime/sp_net_ext.c:143-152 | after an accept and a line read, a plain close makes the next connection return a line of the old one |
| `LineReader.Reader.FillFrom` | src/runtime/sp_net_ext.c:119-129 | one receive fills the buffer from its start |
| `LineReader.Reader.EndLine` | src/runtime/sp_net_ext.c:133-136 | one carriage return at the end, if there is one, is dropped, the bytes before it stay and the line is terminated |
| `LineReader.Reader.ReadLineBuffered` | src/runtime/sp_net_ext.c:109-141 | the loop over the two buffers returns the line of the specification, terminated, and leaves its state |
| `LineReader.Reader.BufferedRemaining` | src/runtime/sp_net_ext.c:100-107 | the bytes already read are handed over up to the limit, and kept otherwise |
| `LineReader.Reader.RecvSomeBytes` | src/runtime/sp_net_ext.c:154-163 | a raw read hands over the buffer first and only then the socket |
| `LineReader.Reader.CloseFd` | src/runtime/sp_net_ext.c:149-152 | closing drops what the buffer holds for the descriptor |
| `WebSocket.Connection.RecvUntil` | examples/http_server/ws_echo.rb:51-60 | bytes are collected until there are enough or the peer closes, none lost |
| `WebSocket.Connection.RecvFrame` | examples/http_server/ws_echo.rb:97-129 | a frame is complete exactly when the stream holds one |
| `WebSocket.Connection.Unmask` | examples/http_server/ws_echo.rb:132-141 | the payload is unmasked byte by byte with the key repeated |
| `WebSocket.Connection.Turn` | examples/http_server/ws_echo.rb:96-160 | one turn answers the first frame and keeps the bytes after it |
| `WebSocket.Connection.Handle` | examples/http_server/ws_echo.rb:86-160 | the loop sends exactly the answers to the frames of the stream, however it is chunked |
| `WebSocket.XorUndoes` | examples/http_server/ws_echo.rb:136-138 | masking twice with the same byte gives the byte back |
| `WebSocket.XorBits` | examples/http_server/ws_echo.rb:136-138 | each bit of a masked byte is set if and only if it differs in the byte and the key |
| `WebSocket.FrameRoundTrip` | examples/http_server/ws_echo.rb:98-141 | every client frame decodes to its opcode and payload and its own length, whatever follows |
| `WebSocket.RoundTripExactlyBelow` | examples/http_server/ws_echo.rb:112-118 | a frame decodes to itself if and only if its payload is below 2^32 bytes |
| `WebSocket.ReplyRoundTrip` | examples/http_server/ws_echo.rb:63-83 | a reply decodes under the same parser to its opcode and payload |
| `WebSocket.ReplyShape` | examples/http_server/ws_echo.rb:63-83 | a reply starts with the final bit and the opcode, carries no mask, has a header of 2, 4 or 10 bytes by length, and ends with the payload |
| `WebSocket.ServeAnswersFrames` | examples/http_server/ws_echo.rb:95-160 | a concatenation of client frames gets one reply per frame in order, a pong for a ping and the same opcode otherwise, up to the first close |
| `WebSocket.EchoSession` | examples/http_server/ws_echo.rb:86-160 | for any chunking of any frames, the session sends exactly those replies |
| `ProbeCtx.FindField` | tools/gen_probe_ctx.c:54-58 | the first field of a name, or -1 |
| `ProbeCtx.CheckSchema` | tools/gen_probe_ctx.c:63-90 | the schema passes if and only if there are at most 256 fields, sizes are 1, 2, 4 or 8, exposures are int, names are present and unique, ids lie below 0xF000 and are unique, classes are known and every attach point lists declared fields |
| `ProbeCtx.AttachBitmap` | tools/gen_probe_ctx.c:92-98 | the words end with bit id set exactly for the listed fields, unless an id falls outside the four words |
| `ProbeCtx.BitmapFitsExactly` | tools/gen_probe_ctx.c:64-64 | in a checked schema every listed id fits if and only if the 256th field is not listed |
| `ProbeCtx.LastFieldHasNoBit` | tools/gen_probe_ctx.c:64-64 | a schema of 256 fields whose attach point lists the last passes the check, and that id falls in a fifth word |
| `ProbeCtx.BitOfField` | tools/gen_probe_ctx.c:92-98 | the bit of a declared field is set if and only if the attach point lists it, and bit zero never is |
| `ProbeGate.Violations` | tools/probe_ctx_gate.rb:117-187 | the gate is silent if and only if every published term is kept |
| `ProbeGate.FieldViolations` | tools/probe_ctx_gate.rb:125-147 | no complaint if and only if every field keeps id, type, size, sign and exposure |
| `ProbeGate.AttachViolations` | tools/probe_ctx_gate.rb:149-174 | no complaint if and only if every attach point keeps id, class, ceiling and fields |
| `ProbeGate.StateViolations` | tools/probe_ctx_gate.rb:176-184 | no complaint if and only if every slot state keeps its number |
| `ProbeGate.ChangeSeen` | tools/probe_ctx_gate.rb:117-187 | one field, attach point, state or the word count replaced: silence if and only if each published term is the same, a ceiling may rise and fields may be added |
| `ProbeGate.RemovalSeen` | tools/probe_ctx_gate.rb:117-187 | after a silent step no field, attach point or state is gone |
| `ProbeGate.KeptAlong` | tools/probe_ctx_gate.rb:117-187 | along any history of silent steps, whatever one version published every later one keeps |
| `ProbeGate.FieldStays` | tools/probe_ctx_gate.rb:130-138 | a field id keeps naming the same field at the same type, width, sign and published exposure |
| `ProbeGate.AttachStays` | tools/probe_ctx_gate.rb:154-174 | an attach point keeps its id and class, its ceiling never falls and no field is withdrawn |
| `ProbeGate.StateStays` | tools/probe_ctx_gate.rb:176-184 | a slot state keeps its number |
| `ProbeGate.BitmapGrows` | tools/gen_probe_ctx.c:92-98 | every bit of the old bitmap is a bit of the new one |
| `ProbeAdmit.FirstMissing` | src/runtime/amp/probe_capability.c:116-139 | the first requested field that is not provided, by lowest id, or none |
| `ProbeAdmit.Admit` | src/runtime/amp/probe_capability.c:90-143 | a probe is admitted if and only if it is not bound to another firmware and the first entry of its attach point has every bit it asks for and its budget; every other verdict is returned exactly when its reason is the first to apply |
| `ProbeAdmit.AdmittedStaysAdmitted` | src/runtime/amp/probe_capability.c:90-143 | a probe one firmware admits is admitted by every later firmware of a gated history |
| `AttachDispatch.DetectAttach` | src/codegen_c/spinel_ebpf_cc.c:5466-5511 | the walk returns the answer of the first row that takes the name |
| `AttachDispatch.SplitSection` | src/codegen_c/spinel_ebpf_cc.c:5479-5493 | prefix, category, two underscores and event attach to tracepoint/category/event, the category cut at 127 characters |
| `AttachDispatch.OtherSections` | src/codegen_c/spinel_ebpf_cc.c:5495-5507 | a fixed section is the pattern, a template is the pattern up to its placeholder and the rest of the name, a row without sections gives none, and a tracepoint without an event attaches to nothing |
| `AttachDispatch.ExcludedAttachesNothing` | src/codegen_c/spinel_ebpf_cc.c:5477-5478 | a name whose rest starts with the excluded text attaches to nothing, and no later row is tried |
| `AttachDispatch.ShadowViolations` | tools/attach_gate.rb:70-79 | no complaint if and only if no prefix row extends an earlier prefix |
| `AttachDispatch.UniquenessViolations` | tools/attach_gate.rb:81-90 | no complaint if and only if kinds, names and prefixes are each unique |
| `AttachDispatch.FirstIsLongest` | src/codegen_c/attach_schema.h:16-22 | on a shadow-free table the first row that takes a name has the longest prefix of all that do, and no other has one as long |
| `AttachDispatch.OrderIndependent` | src/codegen_c/attach_schema.h:79-85 | any two shadow-free orders of the same rows answer every name alike, separators, exclusions and splits included |
| `AttachDispatch.ShadowedIsUnreachable` | src/codegen_c/attach_schema.h:16-22 | a row whose prefix extends an earlier one is never picked, whatever the name, unless only the earlier one asks for a separator and the rest of the longer prefix has none |
| `AttachDispatch.ReachedExactlyWhen` | src/codegen_c/attach_schema.h:16-22 | of two rows the wrong way round, some name reaches the later one if and only if that exception applies |
| `AttachDispatch.SeparatorReaches` | src/codegen_c/attach_schema.h:16-22 | such a pair and the name that reaches past the shorter prefix |
| `AttachDispatch.ShadowFreeExactly` | tools/attach_gate.rb:70-79 | with unique prefixes, separators or not, the longest prefix wins for every name if and only if no row is shadowed |

## Left out

- Character-level printing of C: tokens are separate, so a unary minus under a unary minus is two tokens and not one `--`; `stmt`, `stmt_lines`, `if_lines` and `brace_lines` would add indentation only.
- Raw C text: an atom to the printer and the grammar; what it stands for, gives back or may run is a parameter of the leak results, where a raw expression always gives back the same names.
- RingbufLeaks.LeakIsReported: for trees whose raw text reserves nothing, which the scan does not look into.
- RingbufLeaks.LeakIsReal: runs follow the tree's branches; a reservation that fails at run time is one whose null test is not taken, and pointer aliases are not modelled.
- The egress, span-name, bounds-set and histogram-unit declarations, the prose checks and the JSON and comment formatting of the generator: they bear on none of the results and add easy members.
- Fixed text buffers and 32-bit `int` sums in the generator: text and totals are unbounded, so a total that wraps past 2^31 (more than two thousand saturated metrics) is not modelled.
- Integer promotion in declared expressions: values are taken over an arbitrary algebra of operators with the two conversions around a derivation explicit; the 64-bit instance takes every operand as 64 bits wide and picks a value where C defines none.
- IntExprAgree.ReadingsAgree: for a given interpretation the C and declared values are tied one way, by the conversion changing no derivation that is read, because a conversion can also be absorbed by what surrounds it (`UnsignedAbsorbs`); over all interpretations it is both ways.
- AttachDispatch.ShadowFreeExactly: some character occurs in no prefix, as every prefix is part of a method name; a table with a prefix for every character could answer for a shadowed row.
- NUL characters in declared text: a declared text is a C string, so the character parsers never meet one.
- PredicateMeaning.PredicateReadingsAgree: for a compound predicate over wider arrays agreement is settled test by test, since an operand can hide another's disagreement; records are little-endian.
- OneGrammar.SameGrammar: texts that name a property that is both a field and a derivation are settled by `GateIsGenerator` and `GeneratedPasses` only.
- RecordHistory.WireCompatible: a table's sizes and alignments are taken to be those of its C types; the generated static assertions check offsets and the total only.
- MetricBounds.CheckTotal: repeated metric ids, metric names and label keys are refused by the same loops and are not modelled; no bound depends on them.
- MetricSeries.Accumulator.Take: counters and sums are unbounded (64-bit wrap and floating-point rounding are not modelled), and the clock and the push over OTLP are left out.
- Map order in `violations` of the two gates: which messages appear first is not modelled, only which contracts draw none.
- ProbeGate.Violations: `format_version`, `hook`, `kconfig` and the printed bitmap are in neither comparison, as in the source.
- ProbeAdmit.Admit: null pointers, the table's magic word, format and hash are left out; the set of attach points built in is a parameter.
- The M-core side of the rings, a drain started before the ring is initialised, a command ring whose magic word survives a reboot, cache flushes and `/dev/mem`: outside the protocol's assumptions.
- Weak memory: every interleaving is sequentially consistent.
- `sp_net_recv_some` upstream is not part of this repository; it is modelled as one read that retries interruptions and returns nothing at end or on failure.
- Line text as C strings: a NUL byte inside a line would end it early for a C caller; lines are byte sequences.
- epoll, sendfile, PTY and signal code, the HTTP handshake and request parsing: thin wrappers around system calls.
- The attach table's own rows and the flags a matched row copies into the result besides its kind, name and section.
