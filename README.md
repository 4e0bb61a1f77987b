# typescript-go playground core, in Dafny

This project models the core of a browser playground for the Go port of the
TypeScript compiler, and proves properties of that model. It has four parts.

- **The compile worker** (`worker.dfy`, on top of `volume.dfy`). `compile` builds a
  fresh in-memory WasmFs volume and stages the edited files under `/app`, making
  each file's parent directories first. The volume keeps directories as entries of
  their own, so a name that would have to be both a file and a directory (`dist`
  beside `dist/x`) makes staging throw and the call reject. It sets
  `go.argv` to `["js", "tsc"]` and replaces `go.exit` with the resolver of a new
  promise, then runs the compiler. Once the first exit code settles that promise,
  it answers in one of two ways. A non-zero exit gives the error text
  `Exit code: <code>\n<stdout>\n\n<stderr>`. A zero exit gives the `/app/dist`
  subtree, with paths relative to it. The compiler itself is a parameter. It is a
  function from the staged volume and the argument vector to the events it
  produces: file-system calls, and calls of `go.exit`. The worker is a class
  holding the volume, and `Worker.Compile` is proved equal to the pure
  `CompileSpec`.
- **Editor source files** (`source_file.dfy`). The editor's text models live in a
  registry: a class `ModelService` with the models by handle and the live model
  of each URI. `createModel` picks the language from the file name. It reuses the
  live model at the file's URI when the language matches, and otherwise disposes
  it and creates a new one. A `SourceFile` holds a name, code, URI and model;
  `rename` and `dispose` update it in place.
- **The session state** (`state.dfy`). A `Store` class holds the files, the order
  their names were added in, and the tab list derived as `Object.keys(files)`. It
  also holds the active tab, the output map and the flags. Its constructor sets
  up the default `main.ts` and `tsconfig.json`.
- **The version date list** (`version.dfy`). `generateDates` gives the 30 UTC dates
  from today backwards, formatted `Y.M.D`. Today's date is a parameter.

Shared helpers are in `wrappers.dfy` (`Option`), `text.dfy` (prefixes and
suffixes) and `decimal.dfy` (how JavaScript writes an integer in a template
string, and reading it back).

## Model

| member | source | states |
|---|---|---|
| CompileWorker.Worker.Compile | src/worker.ts:33-71 | The reply equals `CompileSpec`. `fs` is a fresh, well-formed volume. When staging throws, the reply is `Rejected`, `fs` holds what was staged before the failing key, and `go.argv` and `go.exit` are untouched. Otherwise `fs` holds the staged volume after the program's calls, `go.argv` is `["js", "tsc"]`, and `go.exit` is a fresh resolver holding the first exit code. |
| CompileWorker.ExitSignal.Resolve | src/worker.ts:46-47 | The first call settles the value and later calls leave it as it was. |
| CompileWorker.FirstExitIsFirstCall | src/worker.ts:46-51 | The code the reply branches on is `c` exactly when some event calls exit with `c` and no earlier event calls exit. |
| CompileWorker.FirstExitNoneIffNoExit | src/worker.ts:46-51 | No code settles exactly when the program never calls exit; the call then never answers (`Pending`). |
| CompileWorker.StagedVolumeKeys | src/worker.ts:37-42 | When staging goes through, the volume the program starts on holds exactly `/dev`, the three standard streams, the resolved input paths and the directories above them, so nothing from an earlier call is present. |
| CompileWorker.StagingSucceedsIff | src/worker.ts:41-42 | With relative names, staging goes through exactly when no name is a directory of another (`dist` and `dist/x`); otherwise `fromJSON` throws. |
| CompileWorker.DirectoryClashRejected | src/worker.ts:41-42 | Staging `dist/x` and then `dist` throws, so the call is `Rejected` whatever the program does. |
| CompileWorker.StagedInputAtApp | src/worker.ts:41-42 | With relative, distinct names, none a directory of another, staging goes through and each input `p ↦ c` is the file `/app/p` with content `c`. |
| CompileWorker.AppJoinInjective | src/worker.ts:42 | Distinct input names are staged at distinct paths under `/app`. |
| CompileWorker.AppAncestorIff | src/worker.ts:42 | Under `/app`, the path of name `a` is a directory above the path of name `b` exactly when `b` starts with `a/`. |
| CompileWorker.FreshAwayFromApp | src/worker.ts:37-42 | The paths of a new WasmFs, all in `/dev`, are neither a staged path under `/app` nor a directory above one. |
| CompileWorker.StagedAroundDist | src/worker.ts:41-42 | When no input is `dist` or lies below it, the staged `/app` is a directory or absent, `/app/dist` is absent, nothing lies below it, and both output streams are files. |
| CompileWorker.StagedOutsideDist | src/worker.ts:41-42 | When no input resolves below `/app/dist`, neither do the directories made for the inputs. |
| CompileWorker.RunEventsWellFormed | src/worker.ts:49-50 | The program's calls keep the volume well formed: every directory above an entry exists and is a directory. |
| CompileWorker.ResultShape | src/worker.ts:25-70 | A returned result carries the elapsed time. Exactly one of `output` and `error` is set, and `error` is set exactly when the exit code is not 0. |
| CompileWorker.ErrorTextCarriesCode | src/worker.ts:60-64 | The error text starts with `Exit code: `, and the exit code can be read back from it. |
| CompileWorker.ZeroExitOutputIsDist | src/worker.ts:67-70 | On success, `k` is in `output` exactly when `/app/dist/k` is a file or an empty directory of the final volume. Its value is the file's text, or null for a directory. |
| CompileWorker.RunEventsKeys | src/worker.ts:49-50 | Every path of the final volume was staged or is named by one of the program's file-system calls. |
| CompileWorker.StreamsOutsideDist | src/worker.ts:31-68 | `/dev` and the standard-stream files lie outside `/app/dist`, so they never reach `output`. |
| CompileWorker.SourcesOutsideDistNotInOutput | src/worker.ts:41-68 | When no input lands in `/app/dist` and the program writes nothing there, `output` is empty: staged sources never show up in it. |
| CompileWorker.EmittedFileIsTheOutput | src/worker.ts:41-70 | With relative names, none a directory of another and none at or below `dist`, a program that makes `/app` and `/app/dist`, writes one file `/app/dist/rel` (`rel` without a slash) and exits with 0 gets `output` equal to `{rel: text}`. |
| CompileWorker.EmitThenExitRun | src/worker.ts:49-50 | On a volume where `/app` is a directory or absent and nothing is at or below `/app/dist`, each of that program's calls goes through, and the written file is all that lies below `/app/dist`. |
| CompileWorker.EmitThenExitCode | src/worker.ts:46-51 | That program's single exit call settles the exit promise with its code. |
| CompileWorker.RunThreeCallsThenExit | src/worker.ts:49-50 | Three file-system calls and an exit change the volume as the three calls applied in order. |
| CompileWorker.MakeAppDir | src/worker.ts:50 | `mkdir /app` goes through where nothing is there, and changes nothing where the directory exists. |
| CompileWorker.MakeDistDir | src/worker.ts:50 | `mkdir /app/dist` goes through once `/app` is a directory and nothing is at `/app/dist`. |
| CompileWorker.WriteDistFile | src/worker.ts:50 | Writing `/app/dist/rel` goes through once both directories exist and nothing is at that path. |
| CompileWorker.ZeroExitAnswer | src/worker.ts:54-70 | A zero exit with both streams readable answers with the `/app/dist` subtree and no error. |
| PlaygroundState.DefaultNamesCompile | src/composables/state.ts:6-7 | `main.ts` and `tsconfig.json` stage without a clash whatever they hold. A compiler that makes `/app/dist`, writes `main.js` and exits with 0 gets back `{"main.js": text}`. |
| PlaygroundState.NewSessionCompiles | src/composables/state.ts:6-19 | The same holds for the new session's own `main.ts` and `tsconfig.json` texts. |
| MemVolume.Volume.constructor | src/worker.ts:37 | A new WasmFs holds the directory `/dev` with the three empty standard-stream files in it, and nothing else; the volume is well formed. |
| MemVolume.Volume.FromJSON | src/worker.ts:42 | The volume and the flag become `StageAll` of the entries: in key order, relative to the given directory, each key has its missing parent directories made and is then written. The first key that cannot take a file makes the flag false, and no later key is written. The volume stays well formed. |
| MemVolume.Volume.Apply | src/worker.ts:50 | The volume becomes `ApplyOp` of the call, and stays well formed. A write or append whose parent is missing or a file, or whose path is a directory, is refused. So are a `mkdir` of an existing path or below a missing parent, and an `unlink` of anything but a file. A refused call changes nothing. |
| MemVolume.Volume.ReadFileSync | src/worker.ts:54-55 | The read succeeds exactly when the path is a file, and it returns that file's text. |
| MemVolume.Volume.ToJSON | src/worker.ts:68 | `k` is in the result exactly when `root/k` is a file or an empty directory. Its value is the text, or null for a directory. |
| MemVolume.StageAllKeys | src/worker.ts:42 | After a staging that goes through, a path is present exactly when it was before, some entry resolves to it, or it is a directory above such a path. |
| MemVolume.StageAllEntry | src/worker.ts:42 | After a staging that goes through, an entry that no later entry overwrites is present with its own content. |
| MemVolume.StageAllElsewhere | src/worker.ts:42 | Paths that no entry resolves to keep their node. |
| MemVolume.StageAllHoldsKeys | src/worker.ts:42 | After a staging that goes through, every resolved entry is a file. |
| MemVolume.StageAllNoFileAboveFile | src/worker.ts:42 | A staging that goes through never puts an entry at a path that another entry lies below. |
| MemVolume.StageAllSucceeds | src/worker.ts:42 | Staging goes through when no entry lies above another, none is the root, and nothing already present is in the way. |
| MemVolume.StageAllFailStays | src/worker.ts:42 | Once an entry fails, the entries after it change nothing. |
| MemVolume.StageAllWellFormed | src/worker.ts:42 | Staging keeps the volume well formed. |
| MemVolume.StageAllKeepsFiles | src/worker.ts:42 | A file stays a file through staging. |
| MemVolume.StageAllFileOrigin | src/worker.ts:42 | Every file after staging was a file before or is one of the entries. |
| MemVolume.StageAllDirOrigin | src/worker.ts:42 | Every directory after staging was one before or lies above one of the entries. |
| MemVolume.PutFileWellFormed | src/worker.ts:42 | Writing a file where one can go, with its parents made first, keeps the volume well formed. |
| MemVolume.ApplyOpWellFormed | src/worker.ts:50 | Every call of the program keeps the volume well formed. |
| MemVolume.WriteOntoParentRefused | src/worker.ts:50 | In a well-formed volume, a path with anything below it is a directory, so writing or appending to it changes nothing. |
| MemVolume.WriteThenRead | src/worker.ts:50 | A write that goes through reads back as written, and one that is refused changes nothing. |
| MemVolume.AncestorsIff | src/worker.ts:42 | `q` is a directory above `p` exactly when `p` starts with `q/`. |
| MemVolume.AncestorsChild | src/worker.ts:42 | The directories above `d/name` are those above `d`, and `d` itself. |
| MemVolume.ExtractCharacterised | src/worker.ts:68 | The extracted map has the same membership and values as `ToJSON`'s contract, stated on the pure function. |
| MemVolume.ExtractEmpty | src/worker.ts:68 | A volume with nothing below the root extracts to the empty map. |
| MemVolume.ExtractSingle | src/worker.ts:68 | One file added below an otherwise empty root extracts to a single relative entry. |
| MemVolume.ExtractOnlySeesSubtree | src/worker.ts:68 | Two volumes that agree below the root extract to the same map. |
| MemVolume.RelativeJoin | src/worker.ts:68 | A path below the root is the root, a slash, and its relative key. |
| Decimal.IntRoundTrip | src/worker.ts:63 | The decimal text of an exit code reads back as the same integer. |
| Decimal.NatRoundTrip | src/worker.ts:63 | The decimal text of a natural number reads back as the same number. |
| Decimal.IntToStringInjective | src/worker.ts:63 | Different exit codes have different texts. |
| Decimal.IntToStringHasNo | src/worker.ts:63 | The decimal text of an integer holds no character other than digits and `-`; in particular no line break. |
| Decimal.DigitsValueOfNatToString | src/worker.ts:63 | The digits written for `n` have the value `n`. |
| SourceFiles.LanguageIsJsonIffSuffix | src/composables/source-file.ts:40 | The language is `json` exactly when the name is some stem followed by `.json`. |
| SourceFiles.CreateModelSpec | src/composables/source-file.ts:38-54 | The registry stays well formed and no model is forgotten. |
| SourceFiles.CreateModel | src/composables/source-file.ts:38-54 | The method leaves the registry, URI and model that `CreateModelSpec` gives. |
| SourceFiles.CreateModelRegisters | src/composables/source-file.ts:39-53 | The returned model is the live model at the file's URI. It holds the code and has the language chosen for the name. |
| SourceFiles.CreateModelReuses | src/composables/source-file.ts:42-46 | A live model in the same language is reused: no handle is used up and no URI changes hands. |
| SourceFiles.CreateModelReplaces | src/composables/source-file.ts:42-52 | A live model in another language is disposed, and the file gets a model under a new handle. |
| SourceFiles.CreateModelLeavesOthers | src/composables/source-file.ts:38-54 | No model other than the one at the file's URI changes. |
| SourceFiles.DisposeOnlyTouchesModel | src/composables/source-file.ts:18-20 | Disposing marks that model disposed and frees its URI. It keeps the registry well formed and leaves every other model as it was. |
| SourceFiles.ModelService.constructor | src/composables/source-file.ts:42 | The registry starts empty and well formed. |
| SourceFiles.ModelService.GetModel | src/composables/source-file.ts:42 | Returns the live model at the URI, if any. |
| SourceFiles.ModelService.GetLanguageId | src/composables/source-file.ts:44 | Returns the model's language. |
| SourceFiles.ModelService.SetValue | src/composables/source-file.ts:45 | Only that model's value changes. |
| SourceFiles.ModelService.Dispose | src/composables/source-file.ts:48 | The registry becomes `WithDisposed` of the model. |
| SourceFiles.ModelService.CreateModel | src/composables/source-file.ts:52 | A new model under the next handle, live at its URI. |
| SourceFiles.SourceFile.constructor | src/composables/source-file.ts:4-10 | The file holds the name, code, URI and model that `createModel` gives. |
| SourceFiles.NewFileAttached | src/composables/source-file.ts:4-10 | A new source file holds the live model of its own URI, in its own language. |
| SourceFiles.SourceFile.Rename | src/composables/source-file.ts:11-17 | The file and registry become `RenameSpec`: the new model is created first, then the held model is disposed. |
| SourceFiles.RenameUpdatesFile | src/composables/source-file.ts:11-16 | `rename(n)` sets the name to `n`, keeps the code, and takes the URI and model built for `n`. The previous model ends disposed. |
| SourceFiles.RenameToOtherUriAttaches | src/composables/source-file.ts:13-16 | Because the disposal follows the creation, renaming to another URI leaves the file on a live model that holds its code. |
| SourceFiles.RenameOntoLiveModelAdoptsIt | src/composables/source-file.ts:13-16 | Renaming onto a URI that already has a live model in the same language adopts that model and overwrites its text with this file's code. |
| SourceFiles.RenameToSameUriDisposesHeldModel | src/composables/source-file.ts:13-16 | As written, renaming to a name with the file's own URI and language leaves the file holding a disposed model that no URI maps to. |
| SourceFiles.RenameToSameNameExample | src/composables/source-file.ts:11-17 | Renaming `main.ts` to `main.ts` disposes its model. |
| SourceFiles.SourceFile.RenameChecked | src/composables/source-file.ts:11-17 | The file and registry become `RenameCheckedSpec`, which disposes only a model other than the one now held. |
| SourceFiles.RenameCheckedAttaches | src/composables/source-file.ts:11-17 | With that check, every rename leaves the file holding the live model of its new URI, with its code, and the registry well formed. |
| SourceFiles.SourceFile.Dispose | src/composables/source-file.ts:18-20 | Only the held model is disposed; the file's fields do not change. |
| PlaygroundState.Store.constructor | src/composables/state.ts:3-26 | The files are `main.ts` and then `tsconfig.json`, and the tabs list them in that order. The active tab is `main.ts`, which is a file. The output is empty, `compiling` is false, `timeCost` is 0, `error` is unset and `loading` is true. |
| PlaygroundState.Store.Put | src/composables/state.ts:6-7 | Assigning a file sets its text. A new name goes last in the key order, an existing name keeps its place, and nothing else changes. |
| PlaygroundState.TabsAreFileNames | src/composables/state.ts:4 | The tabs are exactly the file names, each once. |
| PlaygroundState.ObjectKeysPermutes | src/composables/state.ts:4 | The tabs are a permutation of the added keys: array-index names first in ascending numeric order, then the rest. |
| PlaygroundState.ObjectKeysInsertionOrder | src/composables/state.ts:4 | When no file name is an array index, the tabs are the names in the order they were added. |
| PlaygroundState.ObjectKeysHoistsIndices | src/composables/state.ts:4 | With files `main.ts`, `10`, `2` added in that order, the tabs are `2`, `10`, `main.ts`. |
| PlaygroundState.SortIndicesProps | src/composables/state.ts:4 | The array-index keys come out ascending, each exactly as often as it went in. |
| PlaygroundState.AddedTracks | src/composables/state.ts:6-7 | Assigning a file keeps the key order in step with the files; overwriting one leaves the tabs unchanged. |
| PlaygroundState.InitialTabs | src/composables/state.ts:4-7 | The default files are listed in the order they were added. |
| PlaygroundState.OutDirIsDistRoot | src/composables/state.ts:9-14 | The default `compilerOptions.outDir` is `dist`, and `/app` joined with it is the worker's `/app/dist`. |
| PlaygroundState.StringifyPlainString | src/composables/state.ts:7-19 | A string without quotes or backslashes is written between quotes and otherwise unchanged. |
| PlaygroundState.EscapeRoundTrip | src/composables/state.ts:7-19 | Reading back the escaped form of a string gives the original. |
| VersionDates.GenerateDates | src/composables/version.ts:2 | The list has exactly 30 elements. |
| VersionDates.SetUTCDate | src/composables/version.ts:4 | Setting day `n` of a month, including 0 or a negative number, gives a valid date `n - 1` days after the 1st. It rolls across month and year ends both ways. |
| VersionDates.DateAt | src/composables/version.ts:3-4 | Element `i` is a valid date exactly `i` days before today. |
| VersionDates.GeneratedDateAt | src/composables/version.ts:2-5 | Each element reads back as a valid date, `i` days before today. |
| VersionDates.FirstIsToday | src/composables/version.ts:3-5 | Element 0 is today's date. |
| VersionDates.ConsecutiveDays | src/composables/version.ts:4 | Element `i + 1` is the calendar day before element `i`, across month ends, year ends and 29 February. |
| VersionDates.PrevDayIsDayBefore | src/composables/version.ts:4 | The previous day of a valid date is valid and one day earlier. |
| VersionDates.AllDistinct | src/composables/version.ts:2-5 | The 30 elements are pairwise distinct. |
| VersionDates.FormatRoundTrip | src/composables/version.ts:5 | `Y.M.D` without zero padding reads back as the same date, so it names a single date. |
| VersionDates.LeapDayExample | src/composables/version.ts:4-5 | On 1 March 2024, element 1 is `2024.2.29`. |
| VersionDates.DayNumberInjective | src/composables/version.ts:4 | Distinct valid dates have distinct day numbers. |
| VersionDates.DayNumberWithinYear | src/composables/version.ts:4 | A date's day number lies within its year. |
| VersionDates.YearLength | src/composables/version.ts:4 | A Gregorian year has 366 days when it is a leap year and 365 otherwise. |
| VersionDates.MonthsFillYear | src/composables/version.ts:4 | The months of a year add up to its length. |
| VersionDates.DaysBeforeMonthTable | src/composables/version.ts:4 | Days before each month: the common-year table, plus one after February in a leap year. |
| VersionDates.DaysInMonth | src/composables/version.ts:4-5 | Every month has 28 to 31 days. |

## Left out

- The Go/WebAssembly runtime (`wasm-exec.js`, `WebAssembly.compile`, `instantiate`, `go.run`) and the fetch of the wasm binary. The compiler is a `Program` parameter: a function from the staged volume and argument vector to its file-system calls and exit calls. Calls made after `go.run` returns are not modelled.
- `performance.now`: the elapsed time is a parameter, copied into `time`.
- `console.info` logging of the streams: output only. `JSON.parse` of the request: the request is a sequence of `(name, content)` pairs in the order the parsed object lists its keys.
- The birpc bridge and the `postMessage`/`message` wiring: cross-thread plumbing.
- `getStdOut()`, which reads `/dev/stdout` as `readFileSync` reads `/dev/stderr`. A read that throws makes the reply `Rejected`. A program that calls exit nowhere makes it `Pending`.
- Runtime failures are not represented: if `WebAssembly.instantiate` rejects or `go.run` throws, `compile` rejects, which the model does not cover.
- Calls of `compile` are assumed not to overlap. `go.exit`, `go.argv` and `globalThis.fs` are shared, and a second call started while the first awaits would overwrite them; that interleaving is not modelled.
- MemVolume: paths are not normalised (`.`, `..`, repeated or trailing slashes), and a relative path passed by the program is taken as it stands. The root `/` is not an entry; it cannot be written, made or removed.
- MemVolume.FsOp: the program's other file-system calls (`rmdir`, `rename`, `stat`, open file descriptors, `mkdir` with `recursive`) are not modelled; a compiler makes each missing directory with its own `mkdir`.
- MemVolume.Volume.ToJSON: the case where the root itself is a file is not modelled.
- SourceFiles: `monaco.Uri.file` is modelled only as adding a leading slash. Windows drive letters, UNC paths and percent-encoding are left out. `markRaw` and Vue reactivity have no effect on values.
- SourceFiles.ModelService.CreateModel: the editor throws when the URI already has a live model; the model requires that it has none, and `createModel` never breaks that requirement.
- PlaygroundState: `reactive`, `ref` and `computed` are modelled as plain fields; `tabs` is a function of the fields and is always current. Removing or renaming files happens in the application shell, which is not part of this model.
- PlaygroundState.Stringify: only the strings, booleans and objects the default configuration uses. Control characters and non-ASCII escapes in strings are not modelled.
- PlaygroundState.TsconfigSource: the constant is defined by `Stringify` of the default configuration. Its exact characters are not proved equal to a literal, because expanding the whole text at once is beyond the solver's limits here; `OutDirIsDistRoot` proves the configuration value.
- VersionDates: the clock read `new Date()` becomes the `today` parameter, read once per list. The source reads the clock once per element, so a list built across midnight UTC is not modelled. Years are unbounded integers; the limits of JavaScript `Date` are not modelled.
- Module caching, version selection, URL or local-storage state, RPC id correlation and queued compiles appear nowhere in these files and are not modelled.

## Findings

| source | as written | input that shows it | evidently intended | confidence | as-written member | corrected member |
|---|---|---|---|---|---|---|
| src/composables/source-file.ts:13-16 | `rename` disposes the model it held before, even when `createModel` has just handed that same model back. | Renaming `main.ts` to `main.ts` (or to any name with the same URI and language): the file keeps a disposed model and its URI has no live model. | Dispose the old model only when it is not the one now held, so the file stays on a live model. | medium (it depends on whether the application ever renames a file to its own name); not executed | SourceFiles.RenameToSameUriDisposesHeldModel | SourceFiles.RenameCheckedAttaches |
