# The Yul name repository, dialect tables and analyzer, in Dafny

This project models the core of the Yul front end: the pieces that give
names to things, say what a dialect offers, and check a Yul block before any
code is generated.

- **The name repository** (`YulNameRepository`) is an append-only arena.
  - Every name is a handle: a small integer pointing at either a label or an
    older handle it derives from.
  - The constructor fixes the handles of the dialect's types, of its builtins
    and of a few predefined names.
  - Lookups go in both directions: label to handle and handle to label.
  - `generateLabels` gives every derived name of a block a fresh printable
    label.
- **The dialects** (`Dialect`, `EVMDialect`, `EVMDialectTyped`):
  - the builtin table, built from the instruction table and the object-access
    builtins;
  - the reserved identifiers;
  - the `verbatim_<n>i_<m>o` family;
  - the signature rewrites of the typed u256/bool dialect.
- **The analyzer** (`AsmAnalyzer`) walks a block. For each declaration,
  assignment, call, literal and control-flow construct it records
  diagnostics (kind and numeric code). Its verdict is whether no error was
  reported.

The model is written as pure functions over immutable datatypes.

- Failures the source signals by exception (`yulAssert`, and the reporter's
  `FatalError` once the error ceiling is reached) become the `Failure` case
  of a `Result`.
- Diagnostics are a sequence that only grows.
- An `ErrorWatcher` is a position in that sequence.

Modules, one per file:

| File | Module | What it holds |
|---|---|---|
| `wrappers.dfy` | `Wrappers` | `Option` and `Result` |
| `strings.dfy` | `Strings` | string helpers |
| `ordered_sets.dfy` | `OrderedSets` | the iteration order of `std::set<std::string>` |
| `evm.dfy` | `Evm` | target versions and opcodes |
| `builtins.dfy` | `Builtins` | builtin descriptors |
| `evm_dialect.dfy` | `EvmDialect` | the EVM dialects' tables |
| `dialect.dfy` | `Dialects` | dialect dispatch |
| `ast.dfy` | `Ast` | the Yul AST |
| `names.dfy` | `Names` | the repository and its constructor |
| `labels.dfy` | `LabelGeneration` | `generateLabels` |
| `literals.dfy` | `Literals` | the dialect's literal helpers |
| `diagnostics.dfy` | `Diagnostics` | the reporter and watchers |
| `gating.dfy` | `InstructionGate` | instruction gating |
| `analysis.dfy` | `Analysis` | the analyzer's leaf checks |
| `analyzer.dfy` | `Analyzer` | the walk and the verdict |

## Model

| member | source | states |
|---|---|---|
| `Strings.FindDoubleDotFinds` | libyul/AsmAnalysis.cpp:682-687 | searching a label for ".." succeeds exactly when the label contains two consecutive dots |
| `Strings.NatToString` | libyul/backends/evm/EVMDialect.cpp:440-474 | the decimal spelling used in verbatim names has no leading zero (except "0"), and its length says whether the number is below 10 or 100 |
| `Strings.ParseNatToString` | libyul/backends/evm/EVMDialect.cpp:440-474 | reading a printed arity back gives the arity |
| `Strings.NatToStringInjective` | libyul/backends/evm/EVMDialect.cpp:440-474 | different arities have different spellings, so verbatim names of different arities differ |
| `Strings.ToLower` | libyul/backends/evm/EVMDialect.cpp:196-212 | builtin names are the instruction mnemonics lower-cased letter by letter, keeping their length |
| `OrderedSets.SortedElements` | libyul/YulName.cpp:47-57 | the types loop visits every dialect type exactly once, in increasing lexicographic order |
| `OrderedSets.EmptyFirst` | libyul/YulName.cpp:47-57 | an empty type name, if present, is the first one the types loop visits |
| `EvmDialect.CreateEVMFunction` | libyul/backends/evm/EVMDialect.cpp:51-90 | an instruction builtin has the instruction's argument and return counts and stands for that instruction; a terminating instruction cannot continue, and it reverts or terminates as the table says; only msize is marked msize; no literal arguments |
| `EvmDialect.CreateFunction` | libyul/backends/evm/EVMDialect.cpp:92-113 | a non-instruction builtin has the given counts and literal table (empty or one entry per parameter), no instruction and the default control flow |
| `EvmDialect.InstructionBuiltins` | libyul/backends/evm/EVMDialect.cpp:196-212 | a name is an instruction builtin exactly when some included instruction lower-cases to it |
| `EvmDialect.InstructionBuiltinsFirst` | libyul/backends/evm/EVMDialect.cpp:196-212 | since entries are emplaced in table order, each instruction builtin is built from the first included instruction of its name |
| `EvmDialect.CreateBuiltinsKeys` | libyul/backends/evm/EVMDialect.cpp:186-351 | the builtin table holds exactly the included instructions plus, with object access, the seven object builtins; prevrandao appears only from Paris on and difficulty only before Paris |
| `EvmDialect.BuiltinInstructionsUsable` | libyul/backends/evm/EVMDialect.cpp:196-212 | no instruction builtin is a DUP, SWAP, PUSH or jump, and each one is an opcode the target version has |
| `EvmDialect.ObjectBuiltinPatterns` | libyul/backends/evm/EVMDialect.cpp:214-349 | the literal-argument patterns of linkersymbol, datasize, dataoffset, loadimmutable, memoryguard, setimmutable and datacopy, and the arities of setimmutable and datacopy |
| `EvmDialect.ReservedFromTable` | libyul/backends/evm/EVMDialect.cpp:161-174 | a name is reserved by the instruction loop exactly when some mnemonic lower-cases to it and is not one of the version-gated exceptions |
| `EvmDialect.CreateReservedIdentifiers` | libyul/backends/evm/EVMDialect.cpp:115-184 | the reserved set is the instruction names minus the version-gated exceptions, plus six object builtin names (not memoryguard) |
| `EvmDialect.SmallNumberOfString` | libyul/backends/evm/EVMDialect.cpp:353-357 | every number below 100, spelled in decimal, matches `[1-9]?[0-9]` with that value |
| `EvmDialect.SmallNumberCanonical` | libyul/backends/evm/EVMDialect.cpp:353-357 | whatever matches `[1-9]?[0-9]` is below 100 and is the canonical spelling of its value |
| `EvmDialect.VerbatimNameParses` | libyul/backends/evm/EVMDialect.cpp:369-383 | every verbatim name with arities below 100 is recognised by the pattern, with those arities |
| `EvmDialect.ParsedVerbatimNameCanonical` | libyul/backends/evm/EVMDialect.cpp:369-383 | every name the pattern recognises is the canonical verbatim name of its two arities, both below 100 |
| `EvmDialect.VerbatimFunction` | libyul/backends/evm/EVMDialect.cpp:440-474 | verbatim_<a>i_<b>o takes a String literal plus a non-literal arguments and returns b results, all of the default type; it may contain msize and stands for no instruction |
| `EvmDialect.CachedVerbatimFunction` | libyul/backends/evm/EVMDialect.cpp:440-474 | the memo table gains at most the requested key and keeps every earlier entry; on a sound cache the answer is the descriptor verbatimFunction builds |
| `EvmDialect.CachedVerbatimStable` | libyul/backends/evm/EVMDialect.cpp:440-474 | asking for the same arities again returns the same descriptor, whatever was asked in between |
| `EvmDialect.TypedPredicates` | libyul/backends/evm/EVMDialect.cpp:499-512 | in the typed dialect the comparisons return bool, iszero is gone, and not is bool to bool with iszero's instruction |
| `EvmDialect.TypedBooleanOperators` | libyul/backends/evm/EVMDialect.cpp:514-525 | and, or and xor take two bools and return a bool |
| `EvmDialect.TypedBitCopies` | libyul/backends/evm/EVMDialect.cpp:505-525 | bitand, bitor, bitxor and bitnot are the all-u256 versions of the untyped and, or, xor and not |
| `EvmDialect.TypedPopAndConversions` | libyul/backends/evm/EVMDialect.cpp:526-562 | pop is all-u256; popbool is pop taking a bool; bool_to_u256 and u256_to_bool exist with the conversion signatures |
| `EvmDialect.TypedOthersAllU256` | libyul/backends/evm/EVMDialect.cpp:490-497 | every builtin the typed constructor does not rewrite exists in the typed dialect exactly when it exists untyped, with all parameter and return types u256 |
| `Dialects.Builtin` | libyul/backends/evm/EVMDialect.cpp:369-383 | with object access every verbatim-pattern name resolves to a verbatim builtin of that name; any other name resolves to the table's entry or to nothing; the base dialect has no builtins |
| `Dialects.YulDeprecated` | libyul/Dialect.cpp:53-80 | the deprecated dialect has eleven types including its default and bool types, no builtins and no reserved names |
| `Dialects.BuiltinsReserved` | libyul/backends/evm/EVMDialect.cpp:394-400 | in the untyped EVM dialect every builtin except memoryguard is a reserved identifier |
| `Dialects.MemoryGuardNotReserved` | libyul/backends/evm/EVMDialect.cpp:226-242 | with object access memoryguard is a builtin, yet it is not reserved |
| `Dialects.VerbatimBuiltin` | libyul/backends/evm/EVMDialect.cpp:369-400 | with object access each verbatim name is a builtin, with verbatimFunction's descriptor, and is reserved |
| `Dialects.TypedDiscardFunctions` | libyul/backends/evm/EVMDialect.cpp:565-574 | the typed dialect discards a bool with a one-bool builtin and a u256 with a one-u256 builtin, neither returning anything |
| `Dialects.TypedEqualityAndNegation` | libyul/backends/evm/EVMDialect.cpp:576-585 | typed equality compares two u256 values into a bool and does not exist for bool; boolean negation maps bool to bool |
| `DialectsCoherent.YulDeprecatedCoherent` | libyul/Dialect.cpp:53-80 | the deprecated dialect meets the name repository constructor's demands on a dialect |
| `DialectsCoherent.EvmDialectCoherent` | libyul/backends/evm/EVMDialect.cpp:186-351 | the untyped EVM dialect, with or without object access, meets the constructor's demands whenever no lower-cased mnemonic is empty or starts with "verbatim" |
| `DialectsCoherent.EvmDialectTypedCoherent` | libyul/backends/evm/EVMDialect.cpp:481-563 | the typed EVM dialect meets the constructor's demands under the same condition, with no mnemonic spelled "u256" or "bool" |
| `DialectsCoherent.CoherentFromFit` | libyul/backends/evm/EVMDialect.cpp:362-400 | an EVM dialect whose table keys avoid the empty label, the placeholder, the types and the verbatim family, and whose descriptors use only its types, meets the constructor's demands |
| `Names.BaseNameOf` | libyul/YulName.h:94-99 | following derivation links ends at a plain handle no newer than the start, strictly older when the start is derived |
| `Names.BaseNameIdempotent` | libyul/YulName.h:94-99 | the base of a base is itself, and a derived name shares the base of the handle it derives from |
| `Names.DeriveNameBaseLabel` | libyul/YulName.h:101-104 | a name made by deriveName has, as its base label, the base label of the name it derives from |
| `Names.RangeSlotRoundTrip` | libyul/YulName.cpp:158-191 | when the first handle of the builtin range carrying a label is registered, nameOfBuiltin returns it, labelOf reads the label back, and builtin() hands out the dialect's descriptor for the label |
| `Names.LabelOfNameOfLabel` | libyul/YulName.cpp:173-191 | labelOf undoes nameOfLabel: in a valid repository the handle found for a present label is plain and reads back as that label |
| `Names.NameOfLabel` | libyul/YulName.cpp:268-283 | the answer is the empty name or the plain handle of the first occurrence of the label; an absent label gives the empty name |
| `Names.NameOfBuiltin` | libyul/YulName.cpp:285-291 | a non-empty answer is the first handle of the builtin range carrying the label; the empty name means no handle in the range carries it |
| `Names.NameOfType` | libyul/YulName.cpp:293-304 | the lookup succeeds exactly when the type is known (any type when the dialect has none, where the answer is the empty name) and otherwise fails the assertion; a found handle is that of the first type slot holding the type |
| `Names.ConvertBuiltinFunction` | libyul/YulName.cpp:255-266 | the converted descriptor keeps the builtin's data and arity, and each parameter and return type becomes that type's handle |
| `Names.DeriveName` | libyul/YulName.cpp:365-369 | a new handle pointing at the given one, with no new label, keeping the arena well linked |
| `Names.DefineVerbatim` | libyul/YulName.cpp:330-340 | a verbatim builtin gets one alias handle per arity pair, made on first use and registered with the descriptor |
| `Names.DefineName` | libyul/YulName.cpp:326-363 | a non-verbatim label ends up on a plain handle; a label already present changes nothing, and a new one is appended; a verbatim label yields the alias of its arities |
| `Names.PresentLabelFound` | libyul/YulName.cpp:268-283 | in a valid repository a present non-empty label is found, on a handle carrying it |
| `Names.AppendedLabelFound` | libyul/YulName.cpp:268-283 | a label just appended is found again at the new handle |
| `Names.DefineNameInterns` | libyul/YulName.cpp:326-363 | defining a non-empty non-verbatim label a second time returns the same handle and leaves the repository as it was |
| `Names.DefineVerbatimByArity` | libyul/YulName.cpp:330-340 | two verbatim labels with the same arities get one handle |
| `Names.EmptyLabelNotInterned` | libyul/YulName.cpp:354-362 | defining the empty label always appends a new handle, since the not-found answer is the empty name itself |
| `Names.AddGhost` | libyul/YulName.cpp:371-374 | the ghost counter goes up by one and the handle carries the ghost label of the old count |
| `Names.GhostsDistinct` | libyul/YulName.cpp:371-374 | two ghosts in a row are different handles |
| `Names.DefineTypes` | libyul/YulName.cpp:47-57 | the types loop adds one type slot per type, in order, keeping everything but the arena and the type slots |
| `Names.DefineTypesLabels` | libyul/YulName.cpp:47-57 | the new labels of the types loop are the non-empty type names, in order |
| `Names.DefineTypesSlots` | libyul/YulName.cpp:47-57 | each type of the loop gets a slot holding its name and a handle carrying it (handle 0 for the empty type) |
| `Names.BeginBuiltins` | libyul/YulName.cpp:58-62 | closing the types fixes the end of the type range and the start of the builtins, and the verbatim handle is the next one |
| `Names.DefineBuiltins` | libyul/YulName.cpp:63-69 | the builtins loop only grows the repository |
| `Names.DefineBuiltinsLabels` | libyul/YulName.cpp:63-69 | the new labels of the builtins loop are the non-empty builtin names, in order |
| `Names.DefineBuiltinsSlot` | libyul/YulName.cpp:63-69 | every fresh builtin label gets the next handle, carrying the label and registered with its converted descriptor |
| `Names.EndBuiltins` | libyul/YulName.cpp:70 | closing the builtins sets the end of the builtin range to the arena's size and changes nothing else |
| `Names.PredefinedName` | libyul/YulName.cpp:74-105 | a predefined name is the builtin's handle when the dialect has a builtin of that name, and a defined name otherwise |
| `Names.PredefinedBuiltinHandles` | libyul/YulName.cpp:74-105 | every predefined handle for a builtin label is that builtin's handle |
| `Names.NameOfBuiltinStable` | libyul/YulName.cpp:285-291 | nameOfBuiltin only looks at frozen handles, so growing the arena does not change its answer |
| `Names.PredefinedLabelFound` | libyul/YulName.cpp:74-105 | every other predefined handle carries its label |
| `Names.Predefine` | libyul/YulName.cpp:72-105 | the bool and default type handles are the handles of the dialect's type names, and the predefined labels get their handles in order |
| `Names.Placeholders` | libyul/YulName.cpp:153-155 | the three placeholder handles are made last and keep everything made before |
| `Names.TypesStageBounds` | libyul/YulName.cpp:47-58 | the type range starts at 1 unless the last type visited is the empty one |
| `Names.BuiltinLabelsNew` | libyul/YulName.cpp:58-69 | no non-empty builtin label exists before the builtins loop, so each gets a handle of its own |
| `Names.Create` | libyul/YulName.cpp:42-156 | the constructor yields a well-linked arena over the given dialect, with every dialect type known to nameOfType |
| `Names.CreateBounds` | libyul/YulName.cpp:42-156 | the constructor's boundaries: the type range ends where the builtin range starts, at the verbatim handle; the builtin range is not empty; label 0 is the empty label; all type slots lie in the type range |
| `Names.CreateValid` | libyul/YulName.cpp:42-156 | the constructor leaves a valid repository: linked, owned, frozen below the end of the builtins, with registered builtins and bounded predefined handles |
| `Names.CreateRegistersBuiltin` | libyul/YulName.cpp:63-69 | after construction nameOfBuiltin finds every non-empty builtin name of the dialect, labelOf reads it back, and builtin() on the handle found yields the dialect's descriptor when the dialect has one |
| `DialectsCoherent.EvmRepoBuiltinRoundTrip` | libyul/YulName.cpp:63-69 | for the EVM dialect, every builtin name round-trips through nameOfBuiltin and labelOf in the repository built for it, and is registered with its descriptor |
| `Names.CreateBeginTypes` | libyul/YulName.cpp:47-57 | without an empty type the type range starts at 1 |
| `Names.CreateTypes` | libyul/YulName.cpp:47-57 | after construction the empty type is the empty name, and every other type is a handle carrying its name inside the type range |
| `Names.CreatePredefined` | libyul/YulName.cpp:74-105 | after construction each predefined handle is the builtin's handle when the dialect has one, and otherwise carries the label |
| `Names.IndexOfType` | libyul/YulName.cpp:306-313 | the index is that of the first type slot holding the handle; it is 0 for a dialect without types, and the assertion fails when no slot holds it |
| `Names.FetchTyped` | libyul/YulName.cpp:193-202 | the per-type lookup fails exactly when indexOfType does, and otherwise returns the builtin the table lists at that index, or nothing |
| `Names.HashFunctionOf` | libyul/YulName.cpp:241-246 | the hash handle is the table's entry at the type's index, and the lookup fails exactly when indexOfType does |
| `Names.IndexOfNameOfType` | libyul/YulName.cpp:293-313 | indexOfType undoes nameOfType: the slot found for a type's handle holds that type |
| `Names.FunctionTablesMatch` | libyul/YulName.cpp:107-151 | the per-type tables list, per type, the dialect's builtin for it |
| `Names.CreateTablesMatch` | libyul/YulName.cpp:107-151 | after construction the tables still match the dialect |
| `Names.CreateLookup` | libyul/YulName.cpp:193-239 | after construction each per-type lookup for a dialect type answers with the handle of the dialect's builtin for that type |
| `Names.CreateBoolAndDefault` | libyul/YulName.cpp:72-73 | the bool and default type handles are the handles of the dialect's bool and default type names |
| `Literals.ZeroLiteralForType` | libyul/Dialect.cpp:30-35 | the zero literal carries the requested type and has value 0; it is the boolean false exactly for a bool type that is not the default type, and otherwise the number "0" |
| `Literals.ZeroLiteralValid` | libyul/Dialect.cpp:30-51 | the zero literal of a type is a valid literal of that type |
| `Literals.NonBooleanLiteralsFitAnyType` | libyul/Dialect.cpp:37-51 | number and string literals fit every type, in both the name form and the handle form |
| `Literals.FormsAgree` | libyul/Dialect.cpp:37-51 | since distinct types have distinct handles, the name form and the handle form agree |
| `Literals.ValidTypeForLiteralForms` | libyul/Dialect.cpp:37-51 | on a freshly constructed repository a literal may carry a dialect type's handle exactly when it may carry the type's name |
| `Diagnostics.ErrorCount` | libyul/AsmAnalysis.cpp:66-82 | the count of errors is zero exactly when no diagnostic is an error |
| `Diagnostics.Report` | libyul/AsmAnalysis.cpp:66-82 | a diagnostic is appended unless it is an error arriving at the ceiling, in which case the analysis aborts with a fatal error |
| `Diagnostics.ReportAll` | libyul/AsmAnalysis.cpp:66-82 | diagnostics raised elsewhere are appended in order, or the analysis aborts |
| `Diagnostics.NoErrorSinceAppend` | libyul/AsmAnalysis.cpp:66-82 | a watcher stays happy across a warning and sees an error |
| `Diagnostics.FatalAfterError` | libyul/AsmAnalysis.cpp:75-80 | an abort happens only once an error has been counted, so the assertion in analyze's handler holds |
| `InstructionGate.Requirement` | libyul/AsmAnalysis.cpp:765-794 | tstore and tload need transient storage and are reported as 6243 without it |
| `InstructionGate.Gate` | libyul/AsmAnalysis.cpp:734-807 | gating fails its assertion exactly for a version with inconsistent capabilities or a jump instruction |
| `InstructionGate.GateFollowsTable` | libyul/AsmAnalysis.cpp:734-807 | PC is always refused as a syntax error 2450; a gated instruction is refused with its own code exactly when the version lacks the capability; nothing else is refused |
| `InstructionGate.GateReportsErrors` | libyul/AsmAnalysis.cpp:765-803 | whatever gating reports is an error |
| `Analysis.Emit` | libyul/AsmAnalysis.cpp:66-82 | reporting appends exactly the diagnostic, or aborts on an error; a warning never aborts |
| `Analysis.EmitIf` | libyul/AsmAnalysis.cpp:66-82 | a guarded report appends the diagnostic when the condition holds and changes nothing otherwise |
| `Analysis.ReportedKept` | libyul/AsmAnalysis.cpp:66-82 | a diagnostic reported after a watcher was made stays visible to it, and an error makes the watcher unhappy for good |
| `Analysis.Resolve` | libyul/AsmAnalysis.cpp:179-184 | without a resolver nothing is known and nothing is raised; with one, its answer and its diagnostics are taken |
| `Analysis.ExpectValidType` | libyul/AsmAnalysis.cpp:697-705 | a type outside the dialect's types is reported as 5473, and a dialect type changes nothing |
| `Analysis.ExpectType` | libyul/AsmAnalysis.cpp:707-719 | a type different from the expected one is reported as 3781, and an equal one changes nothing |
| `Analysis.ExpectBool` | libyul/AsmAnalysis.cpp:593-606 | a non-bool condition type is reported as 1733 |
| `Analysis.ExpectTypes` | libyul/AsmAnalysis.cpp:471-473 | comparing parameter types with argument types leaves the watcher happy exactly when every position agrees |
| `Analysis.ExpectValidIdentifier` | libyul/AsmAnalysis.cpp:671-695 | a declared name is reported as 3384 exactly when its label ends with a dot, as 7771 exactly when it contains "..", and as 5017 exactly when the dialect reserves it; the watcher stays happy exactly when none of these holds |
| `Analysis.AnalyzeIdentifier` | libyul/AsmAnalysis.cpp:140-196 | a variable yields its type and is reported as 4990 unless active; a function yields the default type and is reported as 6041; an unknown name yields the default type |
| `Analysis.UnknownIdentifierReported` | libyul/AsmAnalysis.cpp:181-192 | an unknown name that the resolver does not know always leaves an error for the watcher |
| `Analysis.CheckAssignment` | libyul/AsmAnalysis.cpp:608-661 | assigning to a function is reported as 2657; to an inactive variable as 1133; to a variable of another type as 9547; to an unknown name without a resolver as 4634; the watcher stays happy exactly when the target is an active variable of the value's type, or a name the resolver knows with that type and no error |
| `Analysis.AssignmentWatched` | libyul/AsmAnalysis.cpp:645-660 | checkAssignment's closing assertion holds: a happy watcher implies a known target type |
| `Analysis.AnalyzeLiteral` | libyul/AsmAnalysis.cpp:100-138 | a literal yields its own type; only the codes 5473, 3069, 6708 and 5170 can be reported, each exactly under its own condition, and the watcher stays happy exactly when none applies; a malformed boolean fails the assertion |
| `Analysis.ExpectUnlimitedStringLiteral` | libyul/AsmAnalysis.cpp:584-591 | succeeds, with the literal's type, exactly for a string literal whose value is kept as text |
| `Analysis.ValidateCall` | libyul/AsmAnalysis.cpp:721-732 | a callee is gated only when the default EVM dialect knows it as an instruction; the result says whether a diagnostic was reported |
| `Analysis.ValidateCallReportsMissingInstruction` | libyul/AsmAnalysis.cpp:721-807 | a name the default dialect knows as an instruction that the target version lacks is reported with that instruction's code, as an error |
| `Analyzer.Reverse` | libyul/AsmAnalysis.cpp:469 | reversing keeps the length and mirrors every position |
| `Analyzer.CallHead` | libyul/AsmAnalysis.cpp:325-401 | the call's head settles the callee's signature; calling selfdestruct draws warning 1699; the first tstore call with transient storage available draws warning 2394; calling a variable is reported as 4202; an unknown callee always leaves an error |
| `Analyzer.UnknownCalleeWatched` | libyul/AsmAnalysis.cpp:393-401 | the assertion that an unknown callee was reported holds |
| `Analyzer.AnalyzeCall` | libyul/AsmAnalysis.cpp:325-485 | a known signature with a different number of parameters than arguments is reported as 7000; a call analysed without error has a known signature with as many parameters as arguments, yields its return types, and each literal argument carries its parameter's type; otherwise the call yields default-typed values for a known signature, or nothing |
| `Analyzer.CallWatched` | libyul/AsmAnalysis.cpp:475-479 | the assertion at the end of the call visit holds: a happy watcher means a known signature of the right size |
| `Analyzer.ArgumentTypes` | libyul/AsmAnalysis.cpp:416-469 | visiting the arguments right to left and then reversing yields one type per argument, with each literal's type at its own position |
| `Analyzer.ArgumentType` | libyul/AsmAnalysis.cpp:417-467 | a literal argument contributes its own type; where a literal is demanded, a non-literal is reported as 9114 and a literal of the wrong kind as 5859; a string literal is kept as text, and is reported as 3517 for datasize and dataoffset when it names no data object, and as 1844 for an empty verbatim bytecode |
| `Analyzer.ExpectExpression` | libyul/AsmAnalysis.cpp:570-582 | the result is the expression's first value, or the default type when there is none; 3950 is reported after the expression exactly when it does not yield one value; the watcher stays happy exactly when the expression is clean and yields one value |
| `Analyzer.Duplicates` | libyul/AsmAnalysis.cpp:220-230 | the duplicate check leaves the watcher happy exactly when no target repeats an earlier one |
| `Analyzer.AssignEach` | libyul/AsmAnalysis.cpp:243-248 | the per-target checks leave the watcher happy exactly when every target with a value accepts it; without a resolver they report only 2657, 1133, 4634 and 9547 |
| `Analyzer.AnalyzeAssignment` | libyul/AsmAnalysis.cpp:214-249 | an assignment has at least one target; a repeated target always leaves an error; a value count other than the target count is reported as 8678 right after the value (exactly then, without a resolver); the watcher stays happy exactly when no target repeats, the value is clean, there is one value per target and every target accepts its value |
| `Analyzer.ResolveDeclarations` | libyul/AsmAnalysis.cpp:253-261 | without a resolver the declaration's names are not looked up and nothing changes |
| `Analyzer.CheckTypedNames` | libyul/AsmAnalysis.cpp:262-266 | every declared name's label is available once its checks passed, and the watcher stays happy exactly when every name is a valid identifier with a dialect type |
| `Analyzer.DeclaredNames` | libyul/AsmAnalysis.cpp:253-266 | a clean check of the declared names means every name is a valid identifier with a dialect type, and without a resolver the converse holds too |
| `Analyzer.CompareDeclared` | libyul/AsmAnalysis.cpp:282-299 | comparing declared types with the value's types (the default type where values are missing) leaves the watcher happy exactly when all agree |
| `Analyzer.Activate` | libyul/AsmAnalysis.cpp:301-305 | activation adds exactly the declared variables, and succeeds exactly when the scope declares each as a variable |
| `Analyzer.AnalyzeDeclaration` | libyul/AsmAnalysis.cpp:251-306 | a declaration keeps scope and loop and leaves exactly its variables newly active; after the value, 3812 is reported exactly when the value count differs from the variable count, 3947 exactly when some variable's type differs from its value's (the default type where values are missing), and the watcher stays happy after the value exactly when the counts and all types agree |
| `Analyzer.OwnValueNotVisible` | libyul/AsmAnalysis.cpp:268-305 | a variable cannot be used in its own declaration's value: the use is reported as 4990 |
| `Analyzer.FunctionVariables` | libyul/AsmAnalysis.cpp:315-320 | a function's parameters and return variables become active in the scope of its virtual block, and the watcher stays happy exactly when each is a valid identifier with a dialect type |
| `Analyzer.CaseValue` | libyul/AsmAnalysis.cpp:510-529 | a clean case value joins the seen values; a duplicate is reported as 6792 exactly when the case is clean and its value was seen |
| `Analyzer.CaseWatched` | libyul/AsmAnalysis.cpp:510-524 | the watcher of a case value sees an error exactly when the case is not clean |
| `Analyzer.AnalyzeStmt` | libyul/AsmAnalysis.cpp:564-565 | a statement restores scope and loop, and diagnostics and active variables only grow |
| `Analyzer.AnalyzeExpressionStatement` | libyul/AsmAnalysis.cpp:198-212 | 3083 is reported after the expression exactly when the expression is clean and yields values; the statement is clean exactly when its expression is clean and yields nothing |
| `Analyzer.AnalyzeIf` | libyul/AsmAnalysis.cpp:487-492 | a condition that is not of the bool type is reported as 1733 right after the condition's diagnostics; a clean if statement has a clean bool condition |
| `Analyzer.AnalyzeFunction` | libyul/AsmAnalysis.cpp:308-323 | a function name ending with a dot, containing ".." or reserved is reported as 3384, 7771 or 5017; its parameters and return variables are active in the scope of its virtual block; a clean definition has a valid name and well-declared parameters and return variables |
| `Analyzer.AnalyzeSwitch` | libyul/AsmAnalysis.cpp:494-533 | a switch with only a default case draws warning 9592 before anything else, and its value is analysed after that warning; otherwise straight away |
| `Analyzer.NestedSwitchWarns` | libyul/AsmAnalysis.cpp:497-502 | a switch with a case value whose body is a switch with only a default case also shows warning 9592, so the warning is not tied to the outer switch |
| `Analyzer.AnalyzeFor` | libyul/AsmAnalysis.cpp:535-557 | the init block is visited first and the condition is analysed in the init block's scope; a condition that is not of the bool type is reported as 1733 right after the condition's diagnostics; a clean loop has a bool condition |
| `Analyzer.AnalyzeBlock` | libyul/AsmAnalysis.cpp:559-568 | a block has a scope, and the previous scope is restored |
| `Analyzer.Analyze` | libyul/AsmAnalysis.cpp:66-82 | the verdict is true exactly when scope filling succeeded and the walk ended without an abort and without a new error; only an assertion failure escapes |
| `LabelGeneration.CandidateInjective` | libyul/YulName.cpp:399-405 | different bump counts give different candidate labels |
| `LabelGeneration.Bump` | libyul/YulName.cpp:399-405 | the bump loop stops, on a candidate that is neither used nor illegal |
| `LabelGeneration.FreshLabel` | libyul/YulName.cpp:397-405 | the chosen label is neither used nor illegal; it is the base label when that is free, and otherwise the first free candidate |
| `LabelGeneration.WalkStuck` | libyul/YulName.cpp:392-414 | once the names iterator points below the loop's handle it never moves, and the loop relabels nothing |
| `LabelGeneration.WalkComplete` | libyul/YulName.cpp:392-414 | when every name lies in the loop's range, the loop stops at each one |
| `LabelGeneration.Step` | libyul/YulName.cpp:395-410 | one pass changes only the handle's entry; a name that is not relabelled changes nothing; a relabelled one marks its fresh label used and keeps it for appending or takes over the entry already carrying it |
| `LabelGeneration.AppendGenerated` | libyul/YulName.cpp:416-421 | appending adds one label per kept pair, in order, and leaves other entries alone |
| `LabelGeneration.InitialUsed` | libyul/YulName.cpp:386-389 | the labels in use at the start include every label below the end of the builtins and every printable name's label; the step fails exactly when a printable name has no label |
| `LabelGeneration.GenerateWith` | libyul/YulName.cpp:382-422 | label generation fails exactly when collecting the used labels does, and otherwise only adds labels and rewrites entries |
| `LabelGeneration.ChosenFresh` | libyul/YulName.cpp:397-411 | every picked label is used afterwards, and was neither used at the start nor illegal |
| `LabelGeneration.ChosenDistinct` | libyul/YulName.cpp:397-411 | no two relabelled handles get the same label |
| `LabelGeneration.ChosenKeys` | libyul/YulName.cpp:392-414 | the loop picks a label exactly for the handles of its order that are derived and not verbatim builtins |
| `LabelGeneration.RelabelDistinct` | libyul/YulName.cpp:406-410 | no handle is kept for appending twice |
| `LabelGeneration.ChosenPlaced` | libyul/YulName.cpp:406-410 | every picked label ends up either kept for appending or on the handle's entry |
| `LabelGeneration.PlacedFinal` | libyul/YulName.cpp:416-421 | once the kept pairs are appended, every picked label is on its handle |
| `LabelGeneration.GenerateLabelsFresh` | libyul/YulName.cpp:382-422 | every name that needs a label ends up plain, on a label that is not illegal, not a builtin's and not another printable name's |
| `LabelGeneration.GenerateLabelsDistinct` | libyul/YulName.cpp:382-422 | two different names that need labels get different labels |
| `LabelGeneration.GenerateLabelsFrame` | libyul/YulName.cpp:382-422 | the dialect, the bounds, the old labels and the entries of non-AST or builtin-range handles are unchanged |
| `LabelGeneration.AsWrittenRelabelsNothing` | libyul/YulName.cpp:392-395 | as written, one AST name below the end of the builtins parks the iterator, and the repository comes back unchanged |
| `LabelGeneration.AsWrittenLeavesDerived` | libyul/YulName.cpp:392-414 | as written, a derived name that needs a label stays derived, and labelOf then fails; the corrected loop gives it a label |

## Left out

- NameCollector is not part of this model. The set of handles a block
  mentions is a parameter of label generation.
- Scope.cpp and ScopeFiller are not part of this model. The scopes, the
  declared identifiers, the lookup results and `insideFunction` are an input
  (`Analysis.Info`), and whether scope filling succeeded is a boolean
  argument of `Analyzer.Analyze`.
- ErrorReporter is not part of this model. Its error ceiling is an abstract
  number, message texts are dropped, and the message recorded when the
  ceiling is reached is not modelled.
- The message texts of all diagnostics, and the `labelOf` calls made only to
  build them, are left out. Two `labelOf` calls are kept, where the label
  decides the outcome: the one in `expectValidIdentifier` and the one in
  `validateInstructions` for a call's name (`Analysis.ValidateCall`).
- The resolver's `NonExternal` queries are left out. Their answer is ignored,
  and only their diagnostics could matter; the resolver is an arbitrary
  function parameter.
- `formatLiteral` is a configuration parameter. `validLiteral` is left out,
  because the analyzer's final literal assertion depends on literal parsing
  outside this core.
- `LiteralValue::value()` for unlimited literals, and string-literal hints,
  are abstracted to what the analyzer compares.
- The word of the empty string (`valueOfStringLiteral("")`) is taken to be 0;
  valueOfStringLiteral is not part of this model.
- Side effects (`SideEffects`, `sideEffectsOfInstruction`) and the
  `generateCode` callbacks of builtins are left out: no check in this core
  depends on them.
- The instruction table, `instructionInfo` and the capability predicates of a
  target version belong to the assembler library. They enter as data: an
  `EvmVersion` and a table of `TableEntry` rows.
- `strictAssemblyForEVM`, `strictAssemblyForEVMObjects` and the typed
  dialect's `instance` are left out; they are process-wide caches of dialect
  objects. The analyzer's default dialect is a configuration parameter.
- The copy constructor of the repository, `dialect()` and `isEvmDialect()` are
  left out; immutable values make a copy the identity.
- Source locations and debug data are dropped.
- `break`, `continue` and `leave` are left out; the analyzer does nothing for
  them.
- `Names.DiscardFunctionOf`, `EqualityFunctionOf`, `MemoryStoreFunctionOf`,
  `MemoryLoadFunctionOf`, `StorageStoreFunctionOf` and `StorageLoadFunctionOf`
  are one-line applications of `Names.FetchTyped` to a table, and carry no
  contract of their own.
- `BuiltinFunction::literalArgument` (Dialect.h) is not a separate member: the
  analyzer reads the descriptor's literal-argument table directly
  (`Analyzer.CallHead` hands it over, `Analyzer.ArgumentType` indexes it).
- Analyzer.AnalyzeSwitch: states where the 9592 warning sits, not that the
  switch reports it exactly when it has only a default case, because a
  nested switch reports it too (`Analyzer.NestedSwitchWarns`).
- Analyzer.AnalyzeIf, Analyzer.AnalyzeFor: a clean statement implies a
  clean bool condition, not the converse, because the body's own reports
  also reach the watcher.

## Findings

| source | as written | input that shows it | evidently intended | confidence | as-written member | corrected member |
|---|---|---|---|---|---|---|
| libyul/YulName.cpp:392-414 | the iterator over the block's names starts at the smallest one, but the loop's handle starts at the end of the builtins, and the iterator only moves when the two are equal | any block that mentions a handle below the end of the builtins and also holds a derived name. Example: with the typed EVM dialect, `let u256 := 0` (defineName interns "u256" to the type's handle), together with a name made by deriveName | the iterator should skip the names below the end of the builtins, so that every derived name gets a label | medium, not executed | `LabelGeneration.AsWrittenRelabelsNothing` | `LabelGeneration.GenerateLabelsFresh` |
