# solc-native output pipeline, modelled in Dafny

solc-native wraps a prebuilt Solidity compiler. `compile(options)` validates its
options and runs the compiler once per source file in standard-JSON mode. It then
reshapes each JSON output: unlinked-library placeholders in the bytecode become
fixed-width symbols, each contract with bytecode becomes an artifact (bytecode,
ABI, optional devdoc/userdoc), and diagnostics are de-duplicated. `version()`
reads the compiler's `--version` output and caches the version text.

This project models that pipeline as pure functions over JSON values:

- `results.dfy` (`Results`): `Option` (for `undefined`), the failure kinds with the source's messages, and `Result`.
- `json.dfy` (`JsonValues`): parsed JSON and the JavaScript operations the wrapper applies to it. These are `typeof … === 'object'` (true for `null` and arrays), truthiness, property reads that throw a TypeError on `null`, and `Object.keys` over objects, arrays and strings.
- `ordered_map.dfy` (`OrderedMaps`): JavaScript objects used as dictionaries. Keys stay in insertion order and the last write wins.
- `host.dfy` (`HostServices`): the services the wrapper calls but does not implement. These are `JSON.parse`, the `ToNumber` coercion and the `path` functions, gathered in the `Host` record, and the outcome of running the compiler. All are parameters.
- `link_references.dfy` (`LinkReferences`): gathering `linkReferences`, the 40-character placeholder symbol, and the `substr` splice.
- `artifacts.dfy` (`Artifacts`): per-contract artifact extraction and metadata checks.
- `diagnostics.dfy` (`Diagnostics`): normalised diagnostic records, the seen-set, and first-occurrence de-duplication.
- `options.dfy` (`CompileOptions`): option validation, the optimizer block, and the per-file input document.
- `compilation.dfy` (`Compilation`): `compile` as a fold over the per-file runs. This file also holds the two source defects below.
- `version.dfy` (`CompilerVersion`): line splitting, control-character stripping, label matching, trimming and the cache.

The compiler process is a function from an `Invocation` (arguments, working
directory, input document) to a `Launch`, which is either a spawn error or the
text printed on stdout. In place of `object-hash`, two diagnostics count as
the same exactly when their normalised `Diagnostic` records are equal.

The model follows the code in these places a reader might not expect:

- A numeric run count is refused only when it is negative (index.js:91). So `optimize_runs: 1.5` is accepted. `CompileOptions.RunsGuard` states this.
- The failures are the ones the code raises. Empty or unparsable stdout and unusable metadata all give "Unexpected output while compiling <file>". A property read on `null` (for example `contracts: null` or `sourceLocation: null`) rejects with a TypeError.
- `runs` is copied into the settings whenever `optimize` is defined, even when it is false. The value is copied as given, whatever its type.
- The input document for the k-th file lists the sources of every earlier file too. `Object.assign` copies the base document shallowly, so all runs share one `sources` object (`CompileOptions.SourcesAccumulate`).

Two deliberate divergences from the code are listed under "## Findings": each file gets its own loop index, and `Compile` returns the diagnostics together with the artifacts. One more follows from the same loop index. At index.js:214 and 219 the error message names `files[i]`, and `i` is clobbered there. The model names the file being compiled instead.

## Model

| member | source | states |
|---|---|---|
| `OrderedMaps.PutFind` | index.js:233 | after `output[name] = obj`, that name reads `obj` and every other name reads as before |
| `OrderedMaps.PutAllLastWins` | index.js:233 | after a sequence of stores, each contract name holds the artifact stored for it last, and names never assigned keep their old value |
| `OrderedMaps.PutAllUnique` | index.js:233 | storing by name never creates a second entry for a name |
| `OrderedMaps.PutAllAppend` | index.js:124-128 | storing one run's artifacts and then the next run's is the same as storing both batches in order into the one `output` map |
| `LinkReferences.KeptLength` | index.js:200 | the symbol keeps at most 36 characters of the library name, and never more than the name has |
| `LinkReferences.Placeholder` | index.js:200-201 | the symbol is exactly 40 characters: `__`, then the kept prefix of the library name, then only `_` |
| `LinkReferences.SpliceSlot` | index.js:203 | replacing one 20-byte reference inside the bytecode keeps its length, puts the symbol in exactly that hex span and keeps the characters before and after |
| `LinkReferences.LinkLocality` | index.js:199-204 | after all in-bounds 20-byte references are applied, the bytecode has its original length and no character outside the reported spans changes |
| `LinkReferences.LinkPlacesSymbol` | index.js:199-204 | every reference whose span no later reference overlaps ends up holding its own library's symbol |
| `LinkReferences.Occurrences` | index.js:188-194 | a library's offset list yields references exactly when no entry is `null`: one per entry, in order, with `start` and `length` read by name and doubled |
| `LinkReferences.ReorderedEntry` | index.js:188-194 | an offset entry listing `length` before `start`, with another key besides, still gives the doubled span |
| `LinkReferences.Libraries` | index.js:186-195 | one file's libraries yield references exactly when no offset list and no offset entry is `null` |
| `LinkReferences.LibraryFiles` | index.js:182-196 | the files yield references exactly when no file entry, offset list or offset entry is `null` |
| `LinkReferences.Gather` | index.js:180-196 | gathering can fail only with a TypeError |
| `LinkReferences.GatherSucceeds` | index.js:180-196 | gathering fails exactly when the table, a file's entry, a library's offset list or an offset entry is `null` |
| `LinkReferences.StringOffsetEntry` | index.js:188-194 | an offset entry that is a string has no `start` (NaN) but a real `length`, so the symbol keeps twice that many characters of the name, at most 36 |
| `LinkReferences.GatherWellFormed` | index.js:184-194 | a well-formed `linkReferences` object yields one reference per reported offset, in file, library and list order, with start and length doubled into hex characters |
| `Artifacts.LinkedBytecode` | index.js:175-205 | bytecode passes through unchanged when `linkReferences` is absent or not an object, and gathering can fail only with a TypeError |
| `Artifacts.LinkedBytecodeGathers` | index.js:179-205 | a well-formed `linkReferences` object links exactly the gathered references, in file, library and offset order |
| `Artifacts.LinkedBytecodeLocal` | index.js:175-205 | with no `linkReferences` the bytecode is unchanged; with only in-bounds 20-byte references it keeps its length and every character outside the spans |
| `Artifacts.Doc` | index.js:225-231 | devdoc/userdoc are kept exactly when `typeof` calls them objects |
| `Artifacts.FromMetadata` | index.js:207-231 | unparsable metadata fails with the file's "Unexpected output"; success holds exactly when `output` is an object whose `abi` is object-typed; a failure is a TypeError exactly when the metadata document or its `output` is `null`, and otherwise the file's "Unexpected output" (so a missing or non-object `output` or `abi` is the latter); the artifact's `abi` is `metadata.output.abi` and devdoc/userdoc appear exactly when they are objects |
| `Artifacts.ExtractContract` | index.js:171-234 | a `null` on the bytecode path is a TypeError; a contract is skipped exactly when it has no non-empty `evm.bytecode.object` string; otherwise a linking failure or a metadata failure is its error, and on success its artifact is the metadata artifact over the linked bytecode; any failure other than a TypeError names the file |
| `Artifacts.BytecodeContractNotSkipped` | index.js:173-208 | a contract that exposes bytecode is never skipped; without link references its artifact carries that bytecode verbatim |
| `Artifacts.ContractArtifacts` | index.js:168-234 | every name one file's walk stores is the key of one of its contract records; a failure is a TypeError or the file's "Unexpected output" |
| `Artifacts.ContractArtifactsSucceeds` | index.js:168-234 | one file's walk succeeds exactly when every contract record extracts without error |
| `Artifacts.ContractArtifactsStored` | index.js:168-234 | a successful walk stores exactly the reference list: each record that yields an artifact, paired with it, in key order |
| `Artifacts.StoredHasEveryArtifact` | index.js:170-233 | every record whose extraction yields an artifact is in the reference list under its own name |
| `Artifacts.StoredOnlyArtifacts` | index.js:170-233 | the reference list holds nothing but a record's own name and artifact |
| `Artifacts.ContractArtifactsFirstError` | index.js:170-234 | the first record that fails decides the error of the walk |
| `Artifacts.EveryBytecodeContractStored` | index.js:173-233 | when the walk succeeds, every contract with a non-empty bytecode string is stored under its name with its artifact |
| `Artifacts.ContractArtifactsAppend` | index.js:166-236 | walking two runs of records in turn is walking them together, the first failure winning |
| `Artifacts.ContractsOf` | index.js:165-168 | listing all records fails exactly when some contract file is `null`, and then with a TypeError |
| `Artifacts.FileArtifacts` | index.js:164-236 | failures while walking the files are TypeErrors or the file's "Unexpected output" |
| `Artifacts.FileArtifactsFlatten` | index.js:164-236 | the walk over files and their records is one walk over all records in file and key order; a `null` file fails it |
| `Artifacts.Extract` | index.js:162-237 | an output without an object `contracts` produces no artifacts and no error; a `null` output or `null` contracts is a TypeError; an object `contracts` is walked file by file |
| `Artifacts.ExtractWalk` | index.js:162-237 | with an object `contracts`, extraction fails if any file is `null`, succeeds exactly when every record extracts, and then stores exactly the reference list of all records in file and key order |
| `Diagnostics.Normalise` | index.js:240-253 | the record takes `message` from `formattedMessage` and `severity` as given; it has `source` exactly when `sourceLocation.file` is a string, and `source.offset` exactly when `sourceLocation.start` is a number; a `null` entry or location is a TypeError |
| `Diagnostics.NormaliseAll` | index.js:239-253 | the list is reported exactly when every entry normalises, that is when no entry and no `sourceLocation` is `null`; then each entry is normalised, keeping count and order |
| `Diagnostics.Reported` | index.js:238-262 | an output whose `errors` is not an array reports nothing; an `errors` array reports its entries normalised one by one, in order |
| `Diagnostics.Record` | index.js:254-260 | a record is appended exactly when no equal record was kept before, and the seen-set stays equal to the kept list |
| `Diagnostics.RecordAllConsistent` | index.js:254-260 | over any sequence of diagnostics the seen-set matches the kept list and nothing is kept twice |
| `Diagnostics.RecordAllAppend` | index.js:125-126 | the seen-set lives for the whole call: recording one output's diagnostics and then the next's is recording both together |
| `Diagnostics.FirstOccurrencesSpec` | index.js:254-260 | the reference de-duplication keeps every distinct record once, contains exactly the reported records, and orders them by first occurrence |
| `Diagnostics.DeduplicationKeepsFirstOccurrences` | index.js:254-260 | the seen-set algorithm produces exactly the first occurrences in first-seen order |
| `CompileOptions.RunsGuard` | index.js:91 | a numeric run count is refused only when negative, so 1.5 passes; another value is refused when its coercion is NaN, fractional or negative |
| `CompileOptions.OptimizerSettings` | index.js:84-98 | without `optimize` the defaults stay; with it, `enabled` follows its truthiness, and a present `optimize_runs` is refused by the guard or copied verbatim, even when `optimize` is false |
| `CompileOptions.CheckEntries` | index.js:111-121 | the file list passes exactly when every entry is a non-empty absolute path string; the result normalises each entry in order |
| `CompileOptions.FirstBadEntryDecides` | index.js:111-119 | the first bad entry decides the error: "Invalid input files" for an empty or non-string entry, the absolute-path error otherwise |
| `CompileOptions.InputFiles` | index.js:100-121 | a string `files` is checked as a one-element list; an array is checked entry by entry; a value that is neither a string nor an array is refused |
| `CompileOptions.Validate` | index.js:78-121 | a non-object or missing options value is refused; `null` throws a TypeError; run-count errors come before file errors; with valid optimizer settings a file-list error is the result, and valid files give the request |
| `CompileOptions.RelativeFileRejected` | index.js:111-119 | `files: ["rel.sol"]` rejects with "Input filename must be an absolute path" |
| `CompileOptions.SingleFileString` | index.js:101-103 | `files: "/abs/path"` becomes the one normalised file |
| `CompileOptions.SourceWrites` | index.js:132-133 | the k-th write stores `[file]` under the file's base name |
| `CompileOptions.SourcesAccumulate` | index.js:130-133 | the k-th input document lists the k-th file under its base name, and holds sources for exactly the files compiled so far |
| `Compilation.ReadOutput` | index.js:137-160 | a spawn error rejects with the launch message; empty or unparsable stdout rejects naming the file; otherwise the output is the parsed stdout |
| `Compilation.Step` | index.js:134-267 | a run fails exactly when its output cannot be read or one of its contract records or diagnostic entries cannot be processed, and with that error; otherwise its artifacts are stored and its diagnostics recorded into the running state |
| `Compilation.RunFolds` | index.js:128-268 | a successful call has stored every run's artifacts and recorded every run's diagnostics, in file order |
| `Compilation.Launches` | index.js:128-143 | there is one compiler run per validated file |
| `Compilation.RunSucceeds` | index.js:128-268 | the fold over the runs succeeds exactly when no run fails |
| `Compilation.RunStopsAtFirstFailure` | index.js:128-268 | the first failing run decides the fold's error; later runs are never looked at |
| `Compilation.Compile` | index.js:53-271 | a validation error is the result before anything runs; a success has distinct diagnostics and distinct artifact names |
| `Compilation.CompileSucceeds` | index.js:53-271 | with valid options the call succeeds exactly when every file's run does |
| `Compilation.CompileFirstFailure` | index.js:128-266 | a failing run rejects the whole call with its own error when every earlier file compiled |
| `Compilation.CompileArtifacts` | index.js:124-233 | each contract name holds the artifact written last for it across all files |
| `Compilation.CompileDiagnostics` | index.js:125-269 | the diagnostics are exactly the first occurrences of all records reported across all files, in first-seen order |
| `Compilation.EveryFileInvoked` | index.js:128-143 | the k-th run is the k-th file's: the compiler runs in its directory with a document that names it |
| `Compilation.NextFileIndexAsWritten` | index.js:128 | the source's loop moves to one past the errors-array length whenever the output has one, whatever the current file |
| `Compilation.SecondFileSkippedAsWritten` | index.js:239 | with two files and one diagnostic from the first, the source's index passes the end, while the model still runs the second file |
| `Compilation.IndexStallsAsWritten` | index.js:239 | an empty errors array on the second file sends the source's index back to 1 |
| `Compilation.ResolvedAsWritten` | index.js:269 | the promise delivers the artifact map only |
| `Compilation.DiagnosticsUnobservableAsWritten` | index.js:269 | two compilations that differ only in diagnostics deliver the same value |
| `CompilerVersion.Split` | index.js:329 | splitting gives at least one piece, and no piece contains a line feed |
| `CompilerVersion.SplitJoin` | index.js:329 | joining the pieces with line feeds gives back the text |
| `CompilerVersion.StripControl` | index.js:331 | the stripped line has no character below 0x20; a single character is dropped exactly when it is a control character |
| `CompilerVersion.StripControlAppend` | index.js:331 | stripping a concatenation strips each part, so every other character survives in order |
| `CompilerVersion.StripControlIdentity` | index.js:331 | stripping leaves a line unchanged exactly when it has no control character |
| `CompilerVersion.VersionLineCaseInsensitive` | index.js:31 | a line matches exactly when its first 8 characters spell `version:` in any mix of cases |
| `CompilerVersion.Trim` | index.js:335-338 | the trimmed text neither starts nor ends with white space and is no longer than the input |
| `CompilerVersion.TrimShape` | index.js:335-338 | the trimmed text is a contiguous part of the input, and every character dropped before or after it is white space |
| `CompilerVersion.FirstVersionLine` | index.js:30-35 | finds the first line carrying the label, or reports that none does |
| `CompilerVersion.ParseVersion` | index.js:28-35 | the version is the trimmed text after the label on the first matching line, or `''` when no line matches; it has no control characters and no surrounding white space |
| `CompilerVersion.Version` | index.js:21-42 | the first call detects the version, or gives `''` on a spawn error; later calls return the cached value |
| `CompilerVersion.VersionCached` | index.js:23 | once cached, the version never changes, whatever a later compiler run would print |

## Findings

| source | as written | input that shows it | evidently intended | confidence | as-written member | corrected member |
|---|---|---|---|---|---|---|
| index.js:128 | the file loop's index `i` is also the index of the link-reference loops (188, 199) and the errors loop (239) | two files, the first output reporting one diagnostic: `i` ends at 1, is incremented to 2, and the second file is never compiled (an empty `errors` array on a later file sets it back to 1, so the loop never ends) | each file compiled exactly once, in order | high; not executed | `Compilation.SecondFileSkippedAsWritten` | `Compilation.EveryFileInvoked` |
| index.js:269 | `resolve(output, errors)`: a promise settles with one value, so `errors` is dropped (tests/test.js:19 expects two callback arguments) | any compilation that reports a warning: the caller gets the artifact map and `errors` is undefined | deliver the artifacts together with the de-duplicated diagnostics | high; not executed | `Compilation.DiagnosticsUnobservableAsWritten` | `Compilation.CompileDiagnostics` |

## Left out

- `launchCompiler` and `getCompilerApp` (index.js:275-323): process spawning, platform selection and buffer options. The compiler is a function parameter from invocation to `Launch`, and a spawn error (including an overflowing buffer) is `SpawnFailed`. Writing and closing stdin is not modelled.
- `JSON.parse`, `JSON.stringify` and `object-hash` are foreign library calls. Parsing is the `Host.parse` parameter. The document sent is the structured `InputDocument`, not its text. Hash identity is structural equality of the normalised record. `object-hash` ignores key order inside objects, but the model treats two `message` objects whose keys differ only in order as different.
- `path.isAbsolute`, `normalize`, `basename`, `dirname` and `parse(...).root` are Node library semantics, taken as `Host` parameters.
- JavaScript `ToNumber` of non-number values (strings, booleans, `null`, arrays, objects) is the `Host.toNumber` parameter. Infinite numbers are not represented.
- `Object.keys` places integer-like keys first. The model keeps objects in their parsed key order.
- A parsed object may carry a key twice, because `Host.parse` is unconstrained. `JSON.parse` keeps one copy holding the last value. In the model, `Get` reads the first copy and `Entries` visits every copy, so such documents, which `JSON.parse` never returns, are read differently.
- `Artifacts.ParseMetadata`: a non-string, non-null `metadata` is treated as unparsable. The source coerces it to a string first, so an array holding one JSON string would parse.
- `JsonValues.Get`: of a string's or an array's own properties only `length` is read by name. Index properties are read through `Elements` and `Entries`, which is how the wrapper reads them.
- `LinkReferences.Occurrences`: an offset list that is an object with its own numeric `length` key is treated as having no entries.
- JSON numbers are exact reals. The double rounding and overflow of `start * 2` and `start + len` are not modelled.
- A contract name or a file base name `__proto__` is stored as an ordinary key. JavaScript would set the object's prototype on `output["__proto__"] = obj` instead.
- Strings are sequences of Unicode scalar values, not UTF-16 code units. `substr` offsets therefore differ for text outside the Basic Multilingual Plane.
- `CompilerVersion.Trim`: trims at the ends of the line only. The `m` flag of the source's pattern also trims white space next to U+2028/U+2029 inside a line.
- `CompilerVersion.Trim`: trims ASCII white space only. Full Unicode `\s` (for example U+00A0 and U+FEFF) is not trimmed. After control stripping, the only ASCII white space left is the space character.
- `CompilerVersion.LowerChar`: lower-cases ASCII letters only. For the comparison with `version:` this gives the same verdict as full `toLowerCase`.
- The promise plumbing is left out. A rejection is an `Err` value, and an exception thrown inside the executor (the TypeError of a property read on `null`) is the `TypeError` failure.
- The module-level version cache is an explicit `VersionCache` value that the caller threads through.
- scripts/install.js (download, unzip, file writes), scripts/uninstall.js (recursive deletion) and tests/test.js (a usage script without assertions) are not part of this model.
