# Verified model of the EOS Reimagined tools

EOS Reimagined replaces a game's EOS SDK by a library of its own. Three Python tools carry the risky part of
that: `tools/alpha_runner.py` swaps the game's SDK file for the emulator and must always be able to put it back,
`tools/inspect_game.py` reads game binaries to find what would be missing, and `tools/gen_stubs.py` generates a
shell for every export nobody has written. This project models their algorithms in Dafny and proves what they
promise. `dafny verify dfyconfig.toml` checks everything.

## What is modelled

**The staging transaction** (`Files`, `StagingSpec`, `Staging`, `StagingRuns`). `Staging.SdkFolder` is the
directory with the SDK file, its backup and its staging record. Its methods are the functions of the runner,
one file step at a time. Before every step the world decides its fate: it proceeds, it raises an `OSError`, the
process dies, or a copy silently delivers other bytes; a write that raises or dies leaves a torn file. SHA-256 is
taken as collision free. Each method's contract says which disks it may leave behind under any fates, what it
does when nothing goes wrong, and, for the two torn writes, which fates lead there. `StagingRuns` then proves, over
every sequence of calls and of games between them, that the original SDK is never lost, from exactly which crash
states a restore succeeds, that a crashed restore can be repeated, and that `run_alpha` converges.

What came out of it, beside the guarantees:

- A crash while the staging record or the backup is half written leaves files behind that no later `run` or
  `restore` ever gets past (`StagingRuns.TornStatesAreDeadEnds`); `Staging.KilledStageIsNotRecovered` is a run of the
  tool into each of the two. The SDK still is the original then. The
  documentation (wiki/developers/internals/alpha-tracing.qmd, lines 514-516) says `restore` recovers a transaction
  left by a killed runner; `StagingRuns.RecoveryAfterAnyRun` gives the exact states in which it does.
- `restore_sdk` compares content only. If somebody puts the original bytes back under other permission bits, the
  restore accepts the file, drops the backup and the recorded mode is lost (`StagingRuns.ModeIsLost`, over a complete
  backup and over none; the exact condition for every disk is `StagingRuns.ModeIsRestored`).

**Trace copying** (`TraceCopy`): the capped line reader against "everything through the last newline".

**The binary readers** (`Bytes`, `PeImage`, `PeImports`, `PeLayout`, `PeDelayLayout`, `CliMetadata`, `ElfSymbols`,
`ElfManySections`). The walks run on arbitrary bytes and never read outside the image; on images laid out as their
format standards say, they find exactly what was laid out. The layouts are given as encodings (what bytes stand
where), the readers as the code's offset walks: Microsoft PE Format, "The .idata Section" and "Delay-Load Import
Tables"; ECMA-335, Partition II, sections 24.2.1 to 24.2.3; System V gABI, chapter 4, "Sections" and "Symbol Table".
Two of the layouts modelled here are not read back (a third, names that begin inside another heap string, which
ECMA-335 allows, is not modelled; see "Left out"):

- An ELF image with 0xFF00 or more sections has e_shnum 0 and its section count in the first section header. The
  reader takes the 0 for the count and reports no symbol at all; `ElfSymbols.UndefinedReadBack` is the exact condition,
  and `ElfManySections.ManySectionsLoseASymbol` has such an image for every count from 0xFF00 on.
- In a delay-load descriptor the reader takes the third field, the address of the module handle, for the address of
  the DLL name, which the format has in the second. `PeDelayLayout.DelayImportsReadBack` says exactly when the imports
  are found all the same; where the handles are zero, as before any DLL is loaded, none is, and
  `PeDelayLayout.DelayNameIsMissed` is such an image.

**The census** (`Ordering`, `Census`): an inverted index from symbols to the modules that import them, the missing
symbols, and per-family totals that neither lose nor repeat a symbol.

**The stub generator** (`Text`, `ParamLists`, `Params`, `StubParams`, `NotificationNames`, `Stubs`, `Generator`,
`GeneratorFiles`): splitting
parameter lists, merging notification names, building bodies as statement lists, and deciding which export is
generated where.

- Splitting, printing and splitting a parameter list again gives the same list exactly when the last parameter is
  not blank and the list is not the lone word `void`; `ParamLists.BlankLastPieceIsLost` and
  `ParamLists.LoneVoidIsLost` are the two failures.
- A generated body can name an undeclared identifier in exactly two cases (`Stubs.BodiesAreClosed`): the
  notification stub always writes `ClientData`, also where the signature has no such parameter
  (`Stubs.NotificationWithoutClientData`), and the remove-notification stub forwards a last parameter even if it has
  no name (`Stubs.RemovalOfNamelessParameter`).
- The generator is documented as idempotent. A second run gives the same file, however the directory lists its
  headers, exactly when no two headers include the file of a pending declaration (`Generator.SecondRunIsSame`);
  `Generator.ListingDecides` is a tree in which two do, and the listing decides the result.

## Model

| member | source | states |
|---|---|---|
| Staging.SdkFolder.WriteRecord | tools/alpha_runner.py:57-71 | A record that is reported written is complete; any failure leaves none, a torn or the complete one, and none at all if the clean-up works; a process that dies in the write does leave a torn one |
| Staging.SdkFolder.CopyToBackup | tools/alpha_runner.py:88-102 | A backup that is reported made has the requested mode and, unless the copy was garbled, the SDK's bytes; an unfinished one holds a prefix of them, and a process that dies in the copy leaves the very prefix copied so far |
| Staging.SdkFolder.ReplaceSdk | tools/alpha_runner.py:105-126 | The SDK changes atomically: any failure or crash before the rename leaves it as it was |
| Staging.SdkFolder.CheckHash | tools/alpha_runner.py:36-44 | The comparison is true exactly when the file exists and has the digest |
| Staging.SdkFolder.WriteTransaction | tools/alpha_runner.py:161-168 | Under any fates the call stops at one of the ordered stage points; it ends normally only with record, verified backup and staged SDK all in place |
| Staging.SdkFolder.UndoStage | tools/alpha_runner.py:169-177 | The clean-up changes something only while the SDK is the original, and never leaves a backup without its record |
| Staging.SdkFolder.StageSdk | tools/alpha_runner.py:129-181 | Which disks a stage can leave; a normal end puts the artifact's bytes there under the SDK's mode, with backup and record; its exact result when nothing goes wrong; one failing step leaves no trace unless the replacement had gone through; the fates that leave a torn record or a torn backup |
| Staging.SdkFolder.ReplaceFromBackup | tools/alpha_runner.py:223-231 | The SDK is overwritten only from a backup with the recorded hash, and the result is verified |
| Staging.SdkFolder.RemoveTransaction | tools/alpha_runner.py:233-241 | The backup goes before the record, and only if it hashes to the original |
| Staging.SdkFolder.RestoreSdk | tools/alpha_runner.py:184-241 | From any disk: which disks it can leave, what a normal end puts back, its exact result when nothing goes wrong, and that every refusal before the replacement changes nothing |
| Staging.SdkFolder.StageOrRecover | tools/alpha_runner.py:534-544 | A refused or failed stage that left a record is rolled back; a single failing file step from an idle installation ends with the original, also after the replacement |
| Staging.SdkFolder.Play | tools/alpha_runner.py:546-591 | The launch changes at most the SDK, and only by the game; an OSError before the game has started means it has not, one while its log is closed keeps the exit code, and both are start failures |
| Staging.SdkFolder.LaunchAndRestore | tools/alpha_runner.py:545-597 | The restore in the `finally` runs whatever the launch does; it ends normally only with the recorded original in place and no transaction |
| Staging.SdkFolder.LaunchAndReport | tools/alpha_runner.py:545-622 | The launch record holds the given digests and claims a restored SDK only when it is; the result is exact when nothing goes wrong |
| Staging.SdkFolder.RunAlpha | tools/alpha_runner.py:494-622 | A whole run is a run of stage, outside and restore events; it keeps the original in custody under any fates, its launch record says restored only when it is, and its result is exact when nothing goes wrong |
| Staging.KilledStageIsNotRecovered | tools/alpha_runner.py:129-241 | For every original and artifact: a stage killed in the write of the record or in the copy to the backup ends in a torn state, and the restore after it does not end normally |
| StagingRuns.StageKeepsCustody | tools/alpha_runner.py:129-181 | A stage that stops anywhere keeps the original either at the SDK path or in the backup under a complete record |
| StagingRuns.RestoreKeepsCustody | tools/alpha_runner.py:184-241 | So does a restore, and one that ends normally leaves the original and no transaction |
| StagingRuns.CustodyOverRuns | tools/alpha_runner.py:129-241 | Custody over every run of calls and outside writes that do not themselves destroy the only copy |
| StagingRuns.SdkNeverLost | tools/alpha_runner.py:129-241 | Over every run of calls with any fates: original content and mode are at the SDK path or in the backup under a complete record; a backup implies a complete record; a torn record implies no backup and an untouched SDK; a restore that ends normally gives back the first original |
| StagingRuns.SdkOutlivesGames | tools/alpha_runner.py:494-622 | Over any number of calls and whole runs, each stopped anywhere, with games that write anything but the original bytes under another mode: the original content and mode are at the SDK path or in the backup under a complete record |
| StagingRuns.ToolRunKeepsCustody | tools/alpha_runner.py:129-241 | Custody from any state that has it, over any run of the tool |
| StagingRuns.CallKeepsCustody | tools/alpha_runner.py:129-241 | Every single stage or restore, stopped anywhere, keeps in custody whatever was |
| StagingRuns.PlayKeepsCustody | tools/alpha_runner.py:555-597 | A game may leave anything at the SDK path, short of the original bytes under another mode, and the restore after it keeps the original |
| StagingRuns.OwnRecordsAreAccepted | tools/alpha_runner.py:191-214 | The refusals about a backup without a record and about foreign or invalid records are unreachable by the tool's own steps |
| StagingRuns.CleanRunsReachCrashStates | tools/alpha_runner.py:129-241 | Runs without garbled copies only reach states with an intact original and a backup that is a prefix of it, or an intact backup and the staged artifact |
| StagingRuns.ExactRecovery | tools/alpha_runner.py:184-241 | From a crash state a restore succeeds if and only if it is none of three: no transaction, torn record, torn backup; in those the SDK is the original and nothing changes |
| StagingRuns.RecoveryAfterAnyRun | tools/alpha_runner.py:184-241 | The same at the end of every run of crashed, faulted and completed calls |
| StagingRuns.RetriedRestoresRecover | tools/alpha_runner.py:184-241 | Restores may crash or fail anywhere any number of times; one more that does not gives back the original |
| StagingRuns.TornStatesAreDeadEnds | tools/alpha_runner.py:142-241 | A torn record or torn backup is never left again by any run of stages and restores |
| StagingRuns.RestoreIsGuarded | tools/alpha_runner.py:184-241 | On any disk the SDK changes only from the recorded staged content to the recorded original, and nothing is removed before the SDK is the original |
| StagingRuns.RestoreAfterOutsideWrite | tools/alpha_runner.py:184-241 | Over the tool's own record and any SDK and backup, exactly when a restore gives back original content and mode, and what it does otherwise |
| StagingRuns.ModeIsRestored | tools/alpha_runner.py:216-241 | On every disk whose restore ends normally: the recorded mode is given back if and only if the SDK was replaced or had it already |
| StagingRuns.ModeIsLost | tools/alpha_runner.py:219-223 | Two concrete disks, with a complete backup and with none, whose restore ends normally with another mode than the recorded one |
| StagingRuns.RunConverges | tools/alpha_runner.py:534-544 | The run that meets a recoverable transaction reports an error and leaves the original; the next run stages and restores |
| StagingRuns.RunRestores | tools/alpha_runner.py:545-622 | Every launch outcome ends with the original when the game leaves the SDK alone, and is reported as it was: the game's exit code, 130 or an error to the caller, exit code and status in the launch record |
| StagingRuns.RunRefuses | tools/alpha_runner.py:497-526 | A missing artifact, a failed census and a missing SDK each end the run with their error, no launch record and an untouched disk |
| StagingRuns.GameIsSeen | tools/alpha_runner.py:566-591 | What the game leaves at the SDK path is there after the run unless the game never started |
| StagingRuns.RunReportsForeignSdk | tools/alpha_runner.py:592-617 | A game that leaves a foreign SDK gets no restore, a record that says so, and an intact backup |
| TraceCopy.ReadLine | tools/alpha_runner.py:340 | A capped readline stops after the first newline, at the cap or at the end |
| TraceCopy.CopyTrace | tools/alpha_runner.py:334-359 | Success if and only if every line is short enough and an object and the tail is short enough; then output, record count and torn flag are those of the prefix through the last newline; otherwise the first line that is not good decides which of the two errors is raised |
| TraceCopy.KeptEndsALine | tools/alpha_runner.py:345-354 | What is kept is a prefix ending in a newline, and no newline follows it |
| TraceCopy.OversizedIsNotShareable | tools/alpha_runner.py:343-344 | A read of one byte over the cap means a line or a tail over the cap |
| PeImage.LoadPe | tools/inspect_game.py:42-72 | Exactly which bytes are no PE, which raise, and which directories and sections are read from the rest |
| PeImage.CStrToTheEnd | tools/inspect_game.py:84-88 | A string without a NUL runs to the end of the file, an unmapped one is empty |
| PeImports.ThunkNames | tools/inspect_game.py:90-110 | On any bytes, the names up to a zero thunk or the end of the file, in no more rounds than thunks fit in the file |
| PeImports.HighBitsAreIgnored | tools/inspect_game.py:106 | Of a thunk that is no ordinal only the low 31 bits count |
| PeImports.ThunkNamesFit | tools/inspect_game.py:98-109 | The walk passes at most as many thunks, ordinals included, as fit between its start and the end of the file, and yields no more names than thunks |
| PeImports.ExtendDict | tools/inspect_game.py:140 | One entry a DLL in order of first mention, with all names in order |
| PeImports.FirstSeenInOrder | tools/inspect_game.py:140 | DLLs are listed in the order in which they are first mentioned |
| PeImports.Imports | tools/inspect_game.py:112-142 | On any bytes and both directories, the descriptors walked, grouped by DLL, in no more rounds than descriptors fit in the file |
| PeImports.DescriptorsFit | tools/inspect_game.py:126-141 | The walk passes at most as many descriptors, nameless ones included, as fit between its start and the end of the file |
| PeLayout.OffMapped | tools/inspect_game.py:74-82 | With disjoint sections an address maps to the file offset where its bytes stand |
| PeLayout.OffUnmapped | tools/inspect_game.py:74-82 | An address that no section backs with bytes of the file maps nowhere |
| PeLayout.ThunksReadBack | tools/inspect_game.py:90-110 | A laid-out lookup table, of 4-byte thunks in PE32 and 8-byte ones in PE32+, yields its named imports in order, ordinals skipped |
| PeLayout.DescriptorsReadBack | tools/inspect_game.py:125-141 | A laid-out directory table yields its DLLs in order, with the address table where there is no lookup table |
| PeLayout.ImportsReadBack | tools/inspect_game.py:112-142 | The walk over a laid-out import directory finds exactly what was laid out |
| PeLayout.LoadLayout | tools/inspect_game.py:42-72 | Loading a laid-out image, 32- or 64-bit, gives back its section extents and the first sixteen of however many directories it declares |
| PeLayout.ImportsOfImage | tools/inspect_game.py:42-142 | From the bytes of a laid-out image to its named imports grouped by DLL |
| PeDelayLayout.DelaysReadBack | tools/inspect_game.py:125-141 | A laid-out delay-load table yields its named imports in order, under the texts at the module handles |
| PeDelayLayout.DelayImportsReadBack | tools/inspect_game.py:134-141 | A laid-out delay-load directory is read back if and only if each DLL's name also stands at its module handle; with zero handles nothing is found |
| PeDelayLayout.DelayNameIsMissed | tools/inspect_game.py:134-141 | A laid-out delay-load directory of one DLL, for 32 and 64 bits, of which the walk finds nothing |
| CliMetadata.DotnetPInvoke | tools/inspect_game.py:180-208 | The loop computes the walk, on any bytes, including names without a NUL |
| CliMetadata.SplitNulJoins | tools/inspect_game.py:208 | Splitting the heap loses nothing and cuts at every NUL |
| CliMetadata.StreamReadBack | tools/inspect_game.py:199-205 | After a stream header and its name padding the walk stands at the next header |
| CliMetadata.StreamsReadBack | tools/inspect_game.py:196-205 | The walk visits every laid-out header and keeps the #Strings stream |
| CliMetadata.PInvokeReadBack | tools/inspect_game.py:180-208 | On a laid-out metadata root the result is the strings of the #Strings heap in order |
| ElfSymbols.LoadElf | tools/inspect_game.py:211-251 | The nested loops compute the walk, on any bytes |
| ElfSymbols.SectionsReadBack | tools/inspect_game.py:226-234 | Laid-out section headers are read back |
| ElfSymbols.TableReadBack | tools/inspect_game.py:241-250 | A laid-out symbol table yields its named undefined symbols in order |
| ElfSymbols.UndefinedReadBack | tools/inspect_game.py:211-251 | A laid-out ELF64 image of any number of sections yields the named undefined symbols of all dynamic symbol tables, in section then entry order, if and only if its section count stands in e_shnum or there is no such symbol |
| ElfSymbols.NoCountNoNames | tools/inspect_game.py:225-251 | With e_shnum 0 no symbol is found, whatever else the image holds |
| ElfSymbols.UnterminatedName | tools/inspect_game.py:249-250 | A name without a NUL is read to the last byte but one of the file |
| ElfManySections.ManySectionsLoseASymbol | tools/inspect_game.py:225-251 | For every section count from 0xFF00 on, a laid-out image with one undefined symbol, which the reader does not report |
| Ordering.Sort | tools/inspect_game.py:452 | The one increasing listing of a set of names |
| Ordering.LessIsFirstDifference | tools/inspect_game.py:452 | Increasing is by the first differing character, prefixes first |
| Census.AddAll | tools/inspect_game.py:402-409 | Appends the path under every symbol of the module and under no other |
| Census.ImportersMembers | tools/inspect_game.py:397-409 | Who is listed under a symbol: the modules that mention it |
| Census.ImportersConcat | tools/inspect_game.py:397-409 | Modules are listed in their order |
| Census.FoldModules | tools/inspect_game.py:397-409 | A path is listed under a symbol exactly when that module, not an artifact, imports it, once and in module order |
| Census.FamilyOfParts | tools/inspect_game.py:261-266 | For any symbol, the family is what stands between the first two underscores, or Common if there are not two |
| Census.CountFamilies | tools/inspect_game.py:449-463 | Every family's totals count its own symbols |
| Census.TotalIsConserved | tools/inspect_game.py:449-463 | Columns that count their own family sum to the size of the whole set |
| Census.TakeCensus | tools/inspect_game.py:397-464 | Each index lists exactly what readable modules that are no artifacts hold in their static, delayed, managed and string lists, with their paths; the four missing sets (together all imported symbols minus our exports); and the conserved family totals |
| ParamLists.SplitParams | tools/gen_stubs.py:83-99 | The character loop computes the split |
| ParamLists.DepthCounts | tools/gen_stubs.py:92-95 | Nesting depth is brackets opened minus brackets closed |
| ParamLists.PrintSteps | tools/gen_stubs.py:273 | A signature is the word void, or the parameters with a comma and a blank between two |
| ParamLists.SplitLosesOnlyBlanks | tools/gen_stubs.py:83-99 | Every cut is at nesting depth zero, all such cuts are made, and only separators and trimmed blanks are lost |
| ParamLists.RoundTrip | tools/gen_stubs.py:272-274 | Split, print and split gives the same list if and only if the last parameter is not blank and the list is not the lone word void |
| ParamLists.BlankLastPieceIsLost | tools/gen_stubs.py:97-98 | A list with a blank last parameter that does not survive printing |
| ParamLists.LoneVoidIsLost | tools/gen_stubs.py:84-85 | A list of the lone word void that does not survive printing |
| Params.NameIsLeftmost | tools/gen_stubs.py:102-105 | No identifier that begins earlier reaches the end the search asks for |
| Params.IdentifierCharacters | tools/gen_stubs.py:104 | Which characters names are made of |
| Params.NameIsLastOccurrence | tools/gen_stubs.py:108-110 | The name found is its own last occurrence, so cutting there is cutting at the match |
| Params.DeclarationParts | tools/gen_stubs.py:102-110 | A declaration falls apart into its type and its name, with blanks or stars before the name and brackets or blanks after it |
| StubParams.DelegateTypeOf | tools/gen_stubs.py:156 | A delegate parameter, const or not, is looked up under the name of its type |
| StubParams.TakesOptionsIff | tools/gen_stubs.py:141-148 | An options parameter is a pointer to a type whose name ends in Options |
| StubParams.IsOutputIff | tools/gen_stubs.py:113-125 | An output is a pointer, not to const, char or void, whose name begins with Out; its initialiser casts to the pointee |
| NotificationNames.MergeIsShortest | tools/gen_stubs.py:134-138 | Merging at the largest overlap gives the only shortest text with both ends |
| NotificationNames.UnderscoresGo | tools/gen_stubs.py:132 | The family keeps every character but its underscores |
| NotificationNames.EventOfAddNotify | tools/gen_stubs.py:128-138 | An AddNotify export's event is the shortest merge of its family and what follows the mark |
| NotificationNames.NotificationEvent | tools/gen_stubs.py:128-138 | The last mark splits the name, and family and event are merged into the shortest text that shows both; the loops compute the function the bodies use |
| Stubs.UnusedAll | tools/gen_stubs.py:166 | Exactly the named parameters are marked unused |
| Stubs.OutputsConcat | tools/gen_stubs.py:113-125 | Outputs are taken in the order of the signature |
| Stubs.InitializersInOrder | tools/gen_stubs.py:113-125 | One initialiser an output parameter, in the order of the signature, and no other |
| Stubs.OutputInitializers | tools/gen_stubs.py:113-125 | The loop computes them |
| Stubs.FindApiVersion | tools/gen_stubs.py:141-148 | The loop finds the first named options parameter |
| Stubs.ApiVersionIs | tools/gen_stubs.py:141-148 | Which parameter that is, by position, or zero |
| Stubs.FirstDelegateIs | tools/gen_stubs.py:154-159 | Which parameter is the delegate, by position; unusable without a name or information |
| Stubs.FindDelegate | tools/gen_stubs.py:154-159 | The search loop finds the first parameter of a known delegate type |
| Stubs.StubBody | tools/gen_stubs.py:151-226 | Raises for exactly three return types; otherwise the body is disciplined for the first known delegate and the merged event name, and equals the specified statement list |
| Stubs.BodiesAreDisciplined | tools/gen_stubs.py:151-226 | For every signature: raises for exactly three return types; otherwise one completion call where due and none elsewhere, with the caller's ClientData wherever the signature has it; each output initialised once in order and before it in every body that is neither a notification nor a removal; one return at the end of non-void bodies, of the value and trace shape that belong to the return type; every parameter used |
| Stubs.BodiesAreClosed | tools/gen_stubs.py:151-226 | Exactly when a body names only parameters of its signature |
| Stubs.NotificationWithoutClientData | tools/gen_stubs.py:178-189 | A notification signature without ClientData whose body names it |
| Stubs.RemovalOfNamelessParameter | tools/gen_stubs.py:195-201 | A removal signature with a nameless last parameter, whose body names None |
| Generator.FindImplemented | tools/gen_stubs.py:36-52 | The names defined by any flat source but the generated one |
| Generator.ReadParents | tools/gen_stubs.py:59-62 | The last listed header that includes a file becomes its owner |
| Generator.LastCallbackCounts | tools/gen_stubs.py:71-72 | The last declaration of a delegate type decides its information |
| Generator.ParseHeaders | tools/gen_stubs.py:55-80 | The first declaration of a name wins, with its owning header, and the map of delegates |
| Generator.OwnerIsLast | tools/gen_stubs.py:59-69 | The last listed header that includes a file owns it; otherwise it owns itself |
| Generator.OwnerIsOrderFree | tools/gen_stubs.py:59-62 | The directory order does not matter to a file whose including headers have one name |
| Generator.GroupByHeader | tools/gen_stubs.py:244-246 | Each header's group is its names in sorted order |
| Generator.Generate | tools/gen_stubs.py:229-279 | The definitions written, in file order, each with its body, or none when a body raises |
| Generator.EachExportOnce | tools/gen_stubs.py:229-279 | In the generated file a name has exactly one definition if it is declared and not written by hand, and none otherwise; definitions stand in order of header and name |
| GeneratorFiles.HandWrittenOrGenerated | tools/gen_stubs.py:36-52 | A name is generated if and only if a source file other than eos_base.h declares it and no file other than the generated one defines it |
| GeneratorFiles.FirstInSources | tools/gen_stubs.py:65-80 | The declaration that counts is the first of its name, file by file |
| GeneratorFiles.DelegateInSources | tools/gen_stubs.py:71-72 | The delegate map holds exactly the last callback declaration of each type, file by file |
| Generator.DefinitionsAreFirst | tools/gen_stubs.py:64-80 | Every generated definition has return type, parameters and owner of the first declaration of its name, and a disciplined body |
| Generator.RefusedExactly | tools/gen_stubs.py:211-218 | No file is generated if and only if the first declaration of some pending name returns one of three types |
| Generator.SecondRunIsSame | tools/gen_stubs.py:36-46 | On the tree the generator has written, under every order of listing its headers, the same definitions with the same bodies, if and only if no two headers include the file of a pending declaration or nothing is generated; where this fails for a directory, another listing of the same directory shows it |
| Generator.ListingDecides | tools/gen_stubs.py:59-69 | A concrete directory, listed in two orders, whose generated files differ |
| Generator.CountingTheOutputErasesIt | tools/gen_stubs.py:39-41 | Without leaving its own output out of the measurement, a second run would find every declared name defined |

## Left out

- Two runners on one SDK: there is no lock, and the clean-up of an exclusive create unlinks a file it did not create. `Staging.SdkFolder.WriteRecord` models that clean-up; the transaction is proved for one runner at a time.
- Changes of the files by others in the middle of a call; between calls they are modelled.
- Power-loss durability of directory entries, leftover temporary files, symbolic links, and the check that artifact and SDK are different paths.
- The JSON text of the staging record: a record file is absent, unreadable, incomplete, malformed, or a record. A torn write that lost only the final newline parses and counts as complete; the 64 KiB limit on reading it counts as unreadable.
- Staging.SdkFolder.RunAlpha: argument checks, directory search, environment, subprocess handling, printing and the contents of the bundle are parameters or single steps that may fail.
- `discover_sdk`, `_sanitize_owned`, `create_bundle` beyond `_copy_trace`, `_read_json` beyond its outcomes, and the hash in the trace summary.
- TraceCopy.CopyTrace: whether a line decodes and parses as a JSON object is a parameter.
- `Pe.exports`, `Pe.dotnet`, `load_exports`, the machine names and the regular-expression scans for strings: little beyond the walks already modelled.
- CliMetadata.PInvokeReadBack: heap entries that begin inside another string are not covered; the code returns only whole strings.
- `scan_module` and the report text; a module's sorted symbol lists are the input of the census.
- The regular expressions that find declarations, delegates and definitions in C++ text; `Generator` starts from what they find. The set of delegates with a return value, which the scan collects and nothing uses.
- NotificationNames.NotificationEvent: names with a newline, which the header scan cannot produce.
- The text of the generated file around the definitions (banner, includes, comments), and the survey option.
- `tools/package_release.py`, the C++ library and the headers under include/eos.
