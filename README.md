# Express logging and stats-log code generation, modelled in Dafny

This project models the core of two Android statsd code generators.

**express_log_api_gen** reads a catalog of express metrics, one text-format
protocol-buffer file per team. It checks every metric id against the naming
convention and merges the files into one table, keeping the first definition of
each id. It then gives every metric an `int64_t` id: the first eight bytes of the
SHA-256 digest of its name, read little-endian. A collision between ids is
resolved by a probe. Finally it keeps the metrics of one domain and runs the
C++, header and Java generators on them. The modules are:

- `ExpressHash`: `hash64` in `utils.cpp` and `log.cpp`.
- `ExpressUtils`: `split` in `utils.cpp`.
- `ExpressCatalog`: the id check, `readMetrics`, `readCatalog` and `generateMetricsIds` in `catalog.cpp`.
- `ExpressMain`: the filter, the generator list and `run` in `main.cpp`.

**stats_log_api_gen** turns the collated atoms of `atoms.proto` into C++, Rust and
JNI code. The modules are:

- `StatsModel`: the collation data (atom declarations, field types, annotations) and the annotation scan both writers share.
- `NativeWriter`: `native_writer.cpp`. It covers the annotation blocks, the method signatures and forwarding calls, and the bodies for the AStatsEvent, StatsEventCompat (API Q) and bootstrap back-ends. It also covers the non-chained wrappers, the vendor atom builders, the include selection and the enum definitions of the vendor header.
- `RustWriter`: `rust_writer.cpp`. It covers the type names, the annotations, the signatures, the bodies and the non-chained wrappers.
- `StatsApiGenMain`: `main.cpp`. It covers the AtomsInfo tables, namespace opening and closing, the atom-code constants of the header, `kMaxPushedAtomId`, and the legacy JNI function names and descriptors.

Most generator functions emit text. The model keeps the structure the text is
made of instead: statements, parameters, arguments, constants, namespace lines and
include lists. The characters around that structure are not modelled. Where a
generator does build a string from pieces and that string is the point (JNI names and
descriptors, Rust function names), the string itself is modelled.

Inputs the sources obtain from outside become parameters:

- the parse of each catalog file (`Option`: `None` for a file that does not parse);
- the SHA-256 function;
- the generators' file output;
- the parsed flags;
- the collated atoms;
- `atom_needed_for_module`, as a predicate on atoms.

The constants that come from `Collation.h` and `frameworks/proto_logging` are not
part of this model. These are `API_Q`, `API_R`, `API_S`, `API_T`, `ATOM_ID_FIELD_NUMBER`,
`PULL_ATOM_START_ID`, `DEFAULT_MODULE_NAME` and the annotation ids. They are
declared in `StatsModel` with their documented values (29, 30, 31, 33, 0, 10000,
`"DEFAULT"`, 6 and 7), which come from the generator's design, not from a source
file of this model. The proofs use these values as declared. In particular the
position -1 that `RustWriter.RustConditionalField` proves for atom-level annotations
holds because `ATOM_ID_FIELD_NUMBER` is 0.

A few behaviours of the code are worth knowing:

- *The collision probe.* `hashId = hashId++ % INT64_MAX` assigns the remainder over the increment (C++17 sequencing), and `%` truncates toward zero. One round is therefore the identity for every hash strictly between `INT64_MIN + 1` and `INT64_MAX`. `INT64_MAX` goes to 0 (the post-increment of `INT64_MAX` overflows, which is undefined behaviour; the model keeps only the assigned remainder), `INT64_MIN` to -1 and `INT64_MIN + 1` to 0, and after that the probe does not move. A real collision makes the `do … while` loop spin forever. The model makes that outcome explicit (`ProbeHangs`, and `NeverReturns` for `run`) rather than looping.
- *`readCatalog` always returns true* when it returns, so a file that fails to parse is skipped, and the `-1` branch after it in `run` cannot be reached. A missing or unreadable directory makes `fs::directory_iterator` throw instead, which the model leaves out.
- *`run` starts from an empty id map*, so the "existing metric id" failure of `generateMetricsIds` cannot happen there (`ExpressMain.RunNeverMeetsExistingName`).
- *The Rust writer tests position `argIndex - 1`* in the reset/default conditional. For atom-level annotations (field number 0) that position is -1 (`RustWriter.RustConditionalField`).

## Model

| member | source | states |
|---|---|---|
| ExpressHash.Hash64 | stats/express/express_log_api_gen/utils.cpp:52-60 | the OR-and-shift loop over bytes 1..7 computes the little-endian value of the first eight digest bytes, and it fits 64 bits |
| ExpressHash.LittleEndianRoundTrip | stats/express/express_log_api_gen/utils.cpp:55-59 | splitting the hash value back into n bytes gives the digest bytes read |
| ExpressHash.LittleEndianInjective | stats/express/express_log_api_gen/utils.cpp:55-59 | equal hash values come from equal leading bytes |
| ExpressHash.LittleEndianShift | stats/express/express_log_api_gen/utils.cpp:55-59 | the low byte of the value is byte 0, and the rest is the value of the remaining bytes |
| ExpressHash.LittleEndianPrefix | stats/express/express_log_api_gen/log.cpp:37-41 | the hash depends only on the first n bytes of the digest |
| ExpressHash.DisjointOrIsAdd | stats/express/express_log_api_gen/utils.cpp:57 | on a 64-bit word with no bit set at the new byte's position or above, OR-ing in `b << 8k` adds `b * 256^k`, and the bits above the next byte stay clear |
| ExpressHash.WordFits | stats/express/express_log_api_gen/utils.cpp:52-60 | eight bytes always fit the 64-bit result |
| ExpressHash.ToInt64 | stats/express/express_log_api_gen/catalog.cpp:154 | the uint64_t hash stored as int64_t lies in the int64 range and is congruent to the hash modulo 2^64 |
| ExpressHash.ToInt64Injective | stats/express/express_log_api_gen/catalog.cpp:154 | the signed conversion keeps distinct 64-bit hashes distinct |
| ExpressHash.SignedHashDeterminesPrefix | stats/express/express_log_api_gen/catalog.cpp:154 | two digests get the same int64 id if and only if their first eight bytes agree |
| ExpressUtils.FindFirstOf | stats/express/express_log_api_gen/utils.cpp:36 | find_first_of returns the first position at or after base that holds a delimiter, or nothing when no such position exists |
| ExpressUtils.Split | stats/express/express_log_api_gen/utils.cpp:30-43 | the push-until-npos loop yields exactly the pieces of the recursive split definition |
| ExpressUtils.SplitCount | stats/express/express_log_api_gen/utils.cpp:30-43 | split yields one more piece than there are delimiter characters |
| ExpressUtils.SplitPiecesHaveNoDelimiter | stats/express/express_log_api_gen/utils.cpp:30-43 | split always yields at least one piece, and no piece contains a delimiter |
| ExpressUtils.SplitJoinRoundTrip | stats/express/express_log_api_gen/utils.cpp:30-43 | with a single delimiter c, joining the pieces with c gives back the input |
| ExpressUtils.SplitEdgeCases | stats/express/express_log_api_gen/utils.cpp:35-40 | an empty string gives one empty piece; leading, doubled and trailing delimiters give empty pieces |
| ExpressUtils.OccurrencesAppend | stats/express/express_log_api_gen/utils.cpp:30-43 | delimiter counts add over concatenation |
| ExpressCatalog.ValidMetricIdMatchesPattern | stats/express/express_log_api_gen/catalog.cpp:46-56 | the id matcher accepts exactly the strings of `[a-z]+[a-z_0-9]*[.](value_)[a-z]+[a-z_0-9]*` |
| ExpressCatalog.ValidMetricIdHasOneDot | stats/express/express_log_api_gen/catalog.cpp:48-50 | an accepted id contains exactly one '.', followed by "value_" |
| ExpressCatalog.SegmentHasNoDot | stats/express/express_log_api_gen/catalog.cpp:48 | a segment of the pattern never contains '.' |
| ExpressCatalog.FirstOfIsUnique | stats/express/express_log_api_gen/catalog.cpp:48-50 | a lone '.' is the one the delimiter search finds |
| ExpressCatalog.TestMetricIdIsValid | stats/express/express_log_api_gen/catalog.cpp:46-56 | the id used by the express test clients is accepted |
| ExpressCatalog.InvalidMetricIds | stats/express/express_log_api_gen/catalog.cpp:46-56 | an id without "value_" after its dot, or one starting with a digit, is refused |
| ExpressCatalog.ReadMetrics | stats/express/express_log_api_gen/catalog.cpp:76-115 | readMetrics fails exactly when the file does not parse, leaving the catalog alone; otherwise it merges records that have a valid, new id, and skips records without an id, with an invalid id or that redefine an id |
| ExpressCatalog.MergeKeepsEntries | stats/express/express_log_api_gen/catalog.cpp:106-111 | an entry already in the catalog is never overwritten |
| ExpressCatalog.MergeNewEntries | stats/express/express_log_api_gen/catalog.cpp:91-112 | a new key is present if and only if some record carries it as a valid id, and its value is the first such record's type |
| ExpressCatalog.FirstWithId | stats/express/express_log_api_gen/catalog.cpp:106-109 | finds the first record with a given id, or proves there is none |
| ExpressCatalog.MergeAddsValidIds | stats/express/express_log_api_gen/catalog.cpp:101-104 | every key the merge adds passes validateMetricId |
| ExpressCatalog.ReadCatalog | stats/express/express_log_api_gen/catalog.cpp:117-132 | readCatalog always succeeds, and its catalog is every file merged in directory order |
| ExpressCatalog.MergeRecordsAppend | stats/express/express_log_api_gen/catalog.cpp:126-128 | merging two batches one after the other is merging their concatenation |
| ExpressCatalog.MergeRecordsPrefix | stats/express/express_log_api_gen/catalog.cpp:91-112 | the merge of the first n records depends on those records only |
| ExpressCatalog.MergeFilesIsMergeOfParsed | stats/express/express_log_api_gen/catalog.cpp:117-132 | reading file by file is one merge of all parsed records, with unparsable files dropped |
| ExpressCatalog.LessIrreflexive | stats/express/express_log_api_gen/catalog.cpp:146 | std::string's operator< is irreflexive |
| ExpressCatalog.LessTransitive | stats/express/express_log_api_gen/catalog.cpp:146 | std::string's operator< is transitive |
| ExpressCatalog.LessTotal | stats/express/express_log_api_gen/catalog.cpp:146 | any two distinct strings are ordered one way or the other |
| ExpressCatalog.LessAsymmetric | stats/express/express_log_api_gen/catalog.cpp:146 | no two strings are ordered both ways |
| ExpressCatalog.InsertName | stats/express/express_log_api_gen/catalog.cpp:146 | insertion adds exactly one occurrence of the name |
| ExpressCatalog.InsertNameSorted | stats/express/express_log_api_gen/catalog.cpp:146 | insertion of a new name keeps a list strictly sorted |
| ExpressCatalog.SortNames | stats/express/express_log_api_gen/catalog.cpp:146 | sorting is a permutation of the names |
| ExpressCatalog.SortNamesSorted | stats/express/express_log_api_gen/catalog.cpp:146 | sorting distinct names gives a strictly increasing list |
| ExpressCatalog.SortNamesElements | stats/express/express_log_api_gen/catalog.cpp:146 | sorting keeps exactly the names it was given |
| ExpressCatalog.StrictlySortedUnique | stats/express/express_log_api_gen/catalog.cpp:146 | two strictly sorted lists of the same names are equal |
| ExpressCatalog.SortNamesDeterministic | stats/express/express_log_api_gen/catalog.cpp:142-146 | whatever order the unordered map gives its keys in, the sorted list is the same |
| ExpressCatalog.NameHash | stats/express/express_log_api_gen/catalog.cpp:154 | a name's id is in the int64 range |
| ExpressCatalog.ProbeStep | stats/express/express_log_api_gen/catalog.cpp:159 | one probe round stays strictly inside (-INT64_MAX, INT64_MAX), and it is the identity exactly for hashes strictly between INT64_MIN + 1 and INT64_MAX |
| ExpressCatalog.ProbeStepMoves | stats/express/express_log_api_gen/catalog.cpp:159 | the remainder moves INT64_MAX to 0, INT64_MIN to -1 and INT64_MIN + 1 to 0 |
| ExpressCatalog.ProbeRoundsStayPut | stats/express/express_log_api_gen/catalog.cpp:158-160 | after the first round the probe no longer moves, so a probe whose first value is taken never ends |
| ExpressCatalog.CollectHashes | stats/express/express_log_api_gen/catalog.cpp:137-140 | the hashes in use are exactly those of the existing map |
| ExpressCatalog.ListNames | stats/express/express_log_api_gen/catalog.cpp:142-145 | the list holds every catalog name once |
| ExpressCatalog.AssignIds | stats/express/express_log_api_gen/catalog.cpp:148-173 | the loop over the names computes the reference assignment: the first existing name fails, an unresolved collision hangs, and every other name gets its entry |
| ExpressCatalog.GenerateMetricsIds | stats/express/express_log_api_gen/catalog.cpp:134-176 | the walk over the sorted names is the reference assignment; it returns true exactly when it generated every id |
| ExpressCatalog.AssignEntries | stats/express/express_log_api_gen/catalog.cpp:163-171 | every inserted entry carries its own name, the metric's type and a hash that was free when chosen |
| ExpressCatalog.AssignGeneratedKeys | stats/express/express_log_api_gen/catalog.cpp:148-173 | on success the new map is the old one plus exactly the catalog's names |
| ExpressCatalog.AssignStopKeys | stats/express/express_log_api_gen/catalog.cpp:150-152 | on a stop at some name, exactly the names sorted before it have been inserted: the map is left half-updated |
| ExpressCatalog.AssignHashesDistinct | stats/express/express_log_api_gen/catalog.cpp:156-163 | starting from distinct hashes, the generated entries keep all hashes pairwise distinct |
| ExpressCatalog.AssignFreshNames | stats/express/express_log_api_gen/catalog.cpp:150-152 | with no name already in the map, the walk never meets an existing name |
| ExpressMain.FilterMetricsIds | stats/express/express_log_api_gen/main.cpp:77-95 | an entry is kept if and only if its key matches `.*domain.*`, and kept values are unchanged |
| ExpressMain.ValidIdHasNoLineBreak | stats/express/express_log_api_gen/main.cpp:86-89 | a valid metric id contains no character that `.` refuses to match |
| ExpressMain.MatchesDomainIsSubstring | stats/express/express_log_api_gen/main.cpp:80-89 | on a key without line breaks, matching `.*domain.*` is containing the domain |
| ExpressMain.FilterIsSubMap | stats/express/express_log_api_gen/main.cpp:91-93 | the filter adds no key and changes no value |
| ExpressMain.FilterIdempotent | stats/express/express_log_api_gen/main.cpp:77-95 | filtering twice with one domain is filtering once |
| ExpressMain.EmptyDomainKeepsAll | stats/express/express_log_api_gen/main.cpp:80-82 | the default empty domain keeps every id |
| ExpressMain.FilterKeepsDomainIds | stats/express/express_log_api_gen/main.cpp:77-95 | for a valid id, the filter keeps it if and only if it contains the domain |
| ExpressMain.CreateCodeGenerators | stats/express/express_log_api_gen/main.cpp:48-67 | the generators built are those the flags ask for, in the order C++, header, Java |
| ExpressMain.GeneratorsPerFlag | stats/express/express_log_api_gen/main.cpp:51-64 | each generator is present if and only if its output path is non-empty, each is built from its own flags, and their order is fixed |
| ExpressMain.GenerateLoggingCode | stats/express/express_log_api_gen/main.cpp:69-75 | the generators before the first failure have run; success means all of them ran, and a failure names the generator that failed |
| ExpressMain.GenerateLoggingCodeAllOrFirstFailure | stats/express/express_log_api_gen/main.cpp:71-74 | the loop succeeds if and only if every generator succeeds |
| ExpressMain.Run | stats/express/express_log_api_gen/main.cpp:100-122 | run never returns exactly when the probe spins; it returns 0 exactly when ids were generated, the domain keeps some metric and every generator succeeds; otherwise it returns -1 |
| ExpressMain.RunNeverMeetsExistingName | stats/express/express_log_api_gen/main.cpp:106-109 | starting from an empty id map, generateMetricsIds never fails for an existing name |
| StatsModel.LastIntValue | stats/stats_log_api_gen/native_writer.cpp:52-75 | the remembered state is -1 or the value of some int annotation with that id, and it is -1 when there is none |
| StatsModel.ScanAnnotations | stats/stats_log_api_gen/native_writer.cpp:52-84 | the scan loop emits the reference output: plain annotations in set order, then the joint reset/default conditional |
| StatsModel.PlainOpsMembership | stats/stats_log_api_gen/native_writer.cpp:52-75 | an addInt32Annotation is emitted exactly for a non-state int annotation, an addBoolAnnotation exactly for a bool annotation, and a conditional never |
| StatsModel.PlainOpsConcat | stats/stats_log_api_gen/native_writer.cpp:52-75 | the output of concatenated annotation lists is the concatenation of their outputs |
| StatsModel.PlainOpsPrefix | stats/stats_log_api_gen/native_writer.cpp:52-75 | the output of a prefix does not depend on what follows |
| StatsModel.StateAnnotationsOnlyJointly | stats/stats_log_api_gen/native_writer.cpp:76-84 | reset and default ints are never emitted on their own; the conditional is present if and only if both were seen, and then it comes last with the last values seen |
| StatsModel.MinusOneIsAbsent | stats/stats_log_api_gen/native_writer.cpp:76-84 | whenever the last reset state is -1 (or there is none), no conditional is emitted, whatever the default state |
| NativeWriter.ConstantPrefix | stats/stats_log_api_gen/native_writer.cpp:45 | the constants are prefixed "ASTATSLOG_" exactly above API R |
| NativeWriter.WriteAnnotations | stats/stats_log_api_gen/native_writer.cpp:34-87 | nothing for an unfiled field number; otherwise one block per atom, holding that atom's annotation scan |
| NativeWriter.EraseAllConcat | stats/stats_log_api_gen/native_writer.cpp:206-231 | passing on parameters distributes over concatenation |
| NativeWriter.WriteNativeMethodSignature | stats/stats_log_api_gen/native_writer.cpp:89-117 | after `code`, one parameter group per element in order: the chain's parameters for a chain, else argument start + k, with a length for BOOLEAN_ARRAY |
| NativeWriter.WriteNativeMethodCall | stats/stats_log_api_gen/native_writer.cpp:206-231 | after `code`, one argument group per element, numbered from argIndex on |
| NativeWriter.ChainArgsErase | stats/stats_log_api_gen/native_writer.cpp:224-226 | the chain arguments of a call pass the chain parameters on |
| NativeWriter.CallPassesSignature | stats/stats_log_api_gen/native_writer.cpp:89-117 | a call numbered like a signature passes that signature's parameters on, group by group and in order, when its chain arguments pass the chain parameters on |
| NativeWriter.ElementArgsErase | stats/stats_log_api_gen/native_writer.cpp:206-231 | each element's call arguments pass its parameters on |
| NativeWriter.ChainParamsHaveNoArg | stats/stats_log_api_gen/native_writer.cpp:96-105 | chain parameters are never numbered arguments |
| NativeWriter.ElementParamsShape | stats/stats_log_api_gen/native_writer.cpp:107-113 | one element has a numbered parameter exactly when it is not a chain, and a length parameter exactly when it is a BOOLEAN_ARRAY |
| NativeWriter.SignatureParamsShape | stats/stats_log_api_gen/native_writer.cpp:89-117 | a numbered parameter start + k exists exactly for an element k that is not a chain, with its type; a length parameter exactly for a BOOLEAN_ARRAY element |
| NativeWriter.BooleanArrayCarriesLength | stats/stats_log_api_gen/native_writer.cpp:110-112 | a BOOLEAN_ARRAY element gets its length both in the signature and in the call |
| NativeWriter.SupportNesting | stats/stats_log_api_gen/native_writer.cpp:119-369 | bootstrap support lies within API Q support, which lies within AStatsEvent support; vendor support is AStatsEvent support without chains |
| NativeWriter.WriteNativeMethodBody | stats/stats_log_api_gen/native_writer.cpp:119-204 | returns 1 exactly when some element is unsupported at the API level, and on 0 the body is the reference statement list |
| NativeWriter.WriteCompatMethodBody | stats/stats_log_api_gen/native_writer.cpp:308-354 | the API Q body fails exactly on a repeated or unsupported type |
| NativeWriter.WriteBootstrapMethodBody | stats/stats_log_api_gen/native_writer.cpp:241-307 | the bootstrap body fails exactly when there is an atom-level annotation, or some element is unsupported or annotated; on success it sets the atom id and pushes each element |
| NativeWriter.WriteNativeStatsWriteMethods | stats/stats_log_api_gen/native_writer.cpp:233-369 | returns 0 exactly when every signature is accepted; the bodies written are per signature, stopping at the first one refused |
| NativeWriter.WriteBuildStatsEventMethods | stats/stats_log_api_gen/native_writer.cpp:537-557 | returns 0 exactly when every element of every pulled signature is supported; the bodies written are the event bodies, and on 1 the first signature not written has an unsupported element |
| NativeWriter.NonChainedSignature | stats/stats_log_api_gen/native_writer.cpp:514-523 | the delegate signature replaces the uid and tag arguments with a chain |
| NativeWriter.WriteNonChainedMethod | stats/stats_log_api_gen/native_writer.cpp:506-535 | the wrapper takes the signature's parameters, binds a one-node chain to arguments 1 and 2, and calls the delegate signature numbered from 2 on |
| NativeWriter.NonChainedCallForwards | stats/stats_log_api_gen/native_writer.cpp:514-533 | the delegate call has one group fewer than the wrapper: first the chain's arguments, then group k passes on the wrapper's parameter group k + 1 |
| NativeWriter.NonChainedMethodForwards | stats/stats_log_api_gen/native_writer.cpp:506-535 | a written wrapper's call passes the chain parameters on first, then the wrapper's parameter group k + 1 as its group k |
| NativeWriter.WriteNonChainedMethods | stats/stats_log_api_gen/native_writer.cpp:506-535 | one wrapper per signature, each with its own parameters and delegate call |
| NativeWriter.WriteVendorBuildMethod | stats/stats_log_api_gen/native_writer.cpp:371-504 | the vendor builder fails exactly off its supported types; on success value slot v is set from argument v + 2 |
| NativeWriter.VendorSlotsWrittenOnce | stats/stats_log_api_gen/native_writer.cpp:393-410 | every value slot is written exactly once and stays in bounds |
| NativeWriter.WriteVendorBuildMethods | stats/stats_log_api_gen/native_writer.cpp:620-649 | returns 0 exactly when every vendor signature is accepted |
| NativeWriter.NativeIncludes | stats/stats_log_api_gen/native_writer.cpp:574-593 | each header is included exactly under its bootstrap, API-level and pulled-atom condition |
| NativeWriter.AnnotationConstantsResolve | stats/stats_log_api_gen/native_writer.cpp:45 | a constant the .cpp names is declared exactly once: by the header up to API R, by the annotations header above it |
| NativeWriter.WriteStatsLogCpp | stats/stats_log_api_gen/native_writer.cpp:567-618 | the includes are selected as above, and it returns 0 exactly when all its writers accept |
| NativeWriter.EnumEntries | stats/stats_log_api_gen/native_writer.cpp:742-779 | one entry per value, in key order, with a comma on every entry but the last |
| NativeWriter.WriteEnumEntries | stats/stats_log_api_gen/native_writer.cpp:742-779 | the value loop emits exactly those entries |
| NativeWriter.EnumDefs | stats/stats_log_api_gen/native_writer.cpp:742-779 | one enum definition per distinct enum field |
| NativeWriter.WriteAtomEnums | stats/stats_log_api_gen/native_writer.cpp:742-779 | each enum type is defined at its first field; the class is opened exactly when some enum is defined |
| NativeWriter.DistinctEnumsAreEnumFields | stats/stats_log_api_gen/native_writer.cpp:742-779 | every enum defined is an enum field's type |
| NativeWriter.DistinctEnumsCoverOnce | stats/stats_log_api_gen/native_writer.cpp:742-779 | no enum type is defined twice, and every enum field's type is defined |
| RustWriter.RustTypeNameKnown | stats/stats_log_api_gen/rust_writer.cpp:27-47 | the name is "UNKNOWN" exactly off the known types; every non-chain type the body writes has a name; DOUBLE is the one named type the body refuses |
| RustWriter.RustTypeNameDecodes | stats/stats_log_api_gen/rust_writer.cpp:27-47 | a known Rust type name reads back to its type, up to INT/ENUM |
| RustWriter.RustTypeNamesCollide | stats/stats_log_api_gen/rust_writer.cpp:27-47 | two known types share a name if and only if they are equal or are the INT/ENUM pair |
| RustWriter.WriteRustAnnotations | stats/stats_log_api_gen/rust_writer.cpp:51-94 | nothing for an unannotated field, otherwise the shared annotation scan |
| RustWriter.RustConditionalField | stats/stats_log_api_gen/rust_writer.cpp:88 | for field number i + 1 the conditional tests field i; at atom level it tests position -1 |
| RustWriter.WriteRustMethodSignature | stats/stats_log_api_gen/rust_writer.cpp:96-123 | the name is prefix + atom name; pulled atoms get the pulled-data parameter; each field gets its parameter group |
| RustWriter.WriteRustNonChainedCall | stats/stats_log_api_gen/rust_writer.cpp:245-257 | the wrapper calls stats_write_<name> with one argument group per field |
| RustWriter.NonChainedPassesOwnParameters | stats/stats_log_api_gen/rust_writer.cpp:226-263 | the wrapper passes each of its parameters on, with the chain slices built from it |
| RustWriter.WriteRustMethodBody | stats/stats_log_api_gen/rust_writer.cpp:125-199 | returns 1 exactly for API Q or an unsupported field; on 0 the body is the reference statement list |
| RustWriter.RustWrittenMembers | stats/stats_log_api_gen/rust_writer.cpp:206-211 | the atoms written are exactly those without a key-value pair |
| RustWriter.RustMethodPrefix | stats/stats_log_api_gen/rust_writer.cpp:212-216 | pushed atoms get "stats_write_", pulled ones "add_astats_event_" |
| RustWriter.WriteRustStatsWriteMethods | stats/stats_log_api_gen/rust_writer.cpp:201-224 | returns 0 exactly when every written atom's body is accepted, and then one method per written atom |
| RustWriter.WriteRustNonChainedMethods | stats/stats_log_api_gen/rust_writer.cpp:226-263 | one wrapper per written atom |
| RustWriter.WriteStatsLogRust | stats/stats_log_api_gen/rust_writer.cpp:265-298 | returns 0 exactly when every atom without a key-value pair is accepted |
| RustWriter.KeyValuePairAtomsSkipped | stats/stats_log_api_gen/rust_writer.cpp:206-211 | an atom is written if and only if it has no key-value pair |
| StatsApiGenMain.Picked | stats/stats_log_api_gen/main.cpp:48-130 | a table is no longer than the atom list |
| StatsApiGenMain.PickedCount | stats/stats_log_api_gen/main.cpp:48-130 | a table holds each qualifying atom as often as the atom list does, and no other atom |
| StatsApiGenMain.PickedSize | stats/stats_log_api_gen/main.cpp:48-130 | a table is the whole list when every atom qualifies, and shorter otherwise |
| StatsApiGenMain.ChainAtomsTable | stats/stats_log_api_gen/main.cpp:48-63 | the inner loop with its break records each atom with a chain field once |
| StatsApiGenMain.WhitelistTable | stats/stats_log_api_gen/main.cpp:65-76 | kWhitelistedAtoms lists exactly the whitelisted atoms |
| StatsApiGenMain.UidFieldTable | stats/stats_log_api_gen/main.cpp:78-98 | atoms with uid field 0 are skipped |
| StatsApiGenMain.StateOptionsTable | stats/stats_log_api_gen/main.cpp:100-130 | atoms without primary or exclusive fields are skipped |
| StatsApiGenMain.BytesFieldTable | stats/stats_log_api_gen/main.cpp:132-158 | one push per binary field |
| StatsApiGenMain.WriteAtomsInfoCpp | stats/stats_log_api_gen/main.cpp:31-159 | the fixed blacklist, then each table as defined |
| StatsApiGenMain.AtomsInfoMembership | stats/stats_log_api_gen/main.cpp:48-130 | each table's multiplicity of an atom matches the atom list when the atom qualifies, and is 0 otherwise |
| StatsApiGenMain.BinaryPushesExact | stats/stats_log_api_gen/main.cpp:132-158 | a push (atom, field) exists if and only if field is a binary field of that atom; the count is the number of binary fields |
| StatsApiGenMain.WriteAtomsInfoSection | stats/stats_log_api_gen/main.cpp:206-208 | the tables are written exactly for the default module |
| StatsApiGenMain.Reversed | stats/stats_log_api_gen/main.cpp:170-175 | the reversed list has its elements in the opposite order |
| StatsApiGenMain.WriteNamespace | stats/stats_log_api_gen/main.cpp:162-167 | one opening per comma-separated name, in order |
| StatsApiGenMain.WriteClosingNamespace | stats/stats_log_api_gen/main.cpp:170-175 | one closing per name, in reverse order |
| StatsApiGenMain.OpensPush | stats/stats_log_api_gen/main.cpp:162-167 | the openings push the names on the stack |
| StatsApiGenMain.ClosesPop | stats/stats_log_api_gen/main.cpp:170-175 | the reversed closings pop exactly those names |
| StatsApiGenMain.NamespacesBalanced | stats/stats_log_api_gen/main.cpp:162-175 | opening the namespaces and closing them in reverse is balanced: every close matches the innermost open namespace |
| StatsApiGenMain.MaxPushedAtomId | stats/stats_log_api_gen/main.cpp:657-681 | at least 2, no smaller than any pushed code, and either 2 or one of the codes |
| StatsApiGenMain.WriteAtomConstants | stats/stats_log_api_gen/main.cpp:656-683 | the constants loop emits one constant per needed atom and tracks kMaxPushedAtomId |
| StatsApiGenMain.TrailingCommaRule | stats/stats_log_api_gen/main.cpp:677 | with every atom needed, exactly the last constant lacks its comma; with any atom unneeded, none does |
| StatsApiGenMain.WriteStatsLogHeader | stats/stats_log_api_gen/main.cpp:627-773 | the namespaces wrap the constants; kMaxPushedAtomId appears exactly for the default module |
| StatsApiGenMain.JniTypeNames | stats/stats_log_api_gen/main.cpp:780-817 | which types have a JNI name and an array name, and that INT and ENUM share a name |
| StatsApiGenMain.ConcatInjective | stats/stats_log_api_gen/main.cpp:819-860 | over a prefix-free vocabulary, a concatenation has exactly one reading |
| StatsApiGenMain.JniSuffixDecodes | stats/stats_log_api_gen/main.cpp:819-860 | each suffix reads back to its type's class |
| StatsApiGenMain.JniSuffixWordsArePrefixFree | stats/stats_log_api_gen/main.cpp:819-860 | no suffix is a prefix of another |
| StatsApiGenMain.JniFunctionName | stats/stats_log_api_gen/main.cpp:819-860 | the loop builds "StatsLog_" + name + the per-element suffixes |
| StatsApiGenMain.JniFunctionNamesDistinguish | stats/stats_log_api_gen/main.cpp:819-860 | two signatures get the same JNI name if and only if they agree element by element on class |
| StatsApiGenMain.JniSuffixesDecode | stats/stats_log_api_gen/main.cpp:819-860 | equal suffix strings come from signatures of one length that agree class by class |
| StatsApiGenMain.AppendChainCodes | stats/stats_log_api_gen/main.cpp:893-896 | the inner loop adds one array code per chain field |
| StatsApiGenMain.AppendDescriptorCodes | stats/stats_log_api_gen/main.cpp:890-902 | the element loop adds each element's codes |
| StatsApiGenMain.JniFunctionSignature | stats/stats_log_api_gen/main.cpp:886-905 | the descriptor is "(I" + the element codes + ")I" |
| StatsApiGenMain.DescriptorWordsArePrefixFree | stats/stats_log_api_gen/main.cpp:862-884 | no descriptor code is a prefix of another |
| StatsApiGenMain.ArgCodeDecodes | stats/stats_log_api_gen/main.cpp:862-884 | a non-chain element gives one code that reads back to its class |
| StatsApiGenMain.ChainFreeCodes | stats/stats_log_api_gen/main.cpp:886-905 | without a chain each element contributes one code |
| StatsApiGenMain.JniSignaturesDistinguish | stats/stats_log_api_gen/main.cpp:886-905 | two chain-free signatures get the same descriptor if and only if they agree element by element on class |
| StatsApiGenMain.SameClassesSameCodes | stats/stats_log_api_gen/main.cpp:886-905 | signatures of equal classes get equal codes |

## Left out

- I/O: reading the configuration directory, file parsing, writing output files, logging (LOGE/LOGD, MEASURE_FUNC) and gflags parsing. Parsed inputs and a generator outcome function stand in for them.
- The exception `fs::directory_iterator` throws for a missing or unreadable configuration directory (catalog.cpp:61): `run` then ends with that exception, a path ExpressCatalog.ReadCatalog and ExpressMain.Run do not model.
- SHA-256 is a parameter: `sha256` in `utils.cpp` calls OpenSSL, which is not part of this model.
- `hash64` of `log.cpp` is the same text as that of `utils.cpp`; one `ExpressHash.Hash64` models both.
- ExpressHash.Hash64: the OR-assignment of disjoint bytes is modelled as addition; `ExpressHash.DisjointOrIsAdd` proves the two agree on 64-bit words.
- ExpressMain.FilterMetricsIds: the domain is taken as literal text. Regular-expression metacharacters in the domain and the 256-byte `snprintf` truncation of the pattern are not modelled.
- ExpressCatalog.GenerateMetricsIds: a collision the probe cannot resolve makes the source loop forever; the model stops with the outcome `ProbeHangs`.
- ExpressMain.Run: the `-1` after a failing readCatalog is modelled but unreachable, since readCatalog returns true whenever it returns.
- ExpressCatalog.ProbeStep: takes the truncating remainder of the old value and ignores the post-increment, which for `INT64_MAX` overflows (undefined behaviour in C++).
- String order is on character codes, which is std::string's order for the ASCII metric ids. `std::sort` is modelled as an insertion sort with the same result.
- The code generators themselves (`codegen_native`, `codegen_java`) are not part of this model: their `generateCode` is a parameter.
- Collation (`collation.cpp`) is not part of this model: atoms, signatures and annotations are inputs.
- `make_constant_name` and other name mangling: a constant keeps the atom's name.
- The `ANNOTATION_ID_CONSTANTS.at` lookup from annotation id to constant text is not modelled; an emitted annotation keeps its id.
- The text of `write_cpp_usage`, `write_cpp_method_header`, the Java-facing comments and the header's enum value constants is not modelled.
- StatsModel.ScanAnnotations: bool annotations with the reset or default ids are emitted like any other bool, as the source does.
- RustWriter.WriteRustMethodBody: the attribution chain write is kept as one statement, without the `__chain_<uid>` and `__chain_<tag>` names it uses; the source takes those from the first and last chain fields without checking that the chain is non-empty.
- The native parameter and argument lists are kept as one group per signature element after the leading `code`; the emitted list is their concatenation, and separators and C++ types are not modelled.
- NativeWriter.WriteVendorBuildMethod: the type of the first (reverse-domain-name) element is not checked, as in the source.
- NativeWriter.WriteVendorBuildMethod: atom- and field-level annotations of vendor atoms are only reported on stderr; they produce no statement and do not change the return code.
- StatsApiGenMain.JniSignaturesDistinguish: proved for chain-free signatures only; with a chain, the chain codes repeat the field codes.
- The JNI helpers compile only with `STATS_SCHEMA_LEGACY` (main.cpp:778); the model covers them unconditionally.
- The vendor-log-api-gen front end and the Java writers are not part of this model.
