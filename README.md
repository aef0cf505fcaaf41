# protobuf `python/setup.py`: a verified model of the build script's core

This project models the decision logic of protobuf's Python build script.
The modelled parts are:

- the handling of `sys.argv`;
- the lookup of the protocol compiler;
- the regeneration of `_pb2.py` modules from `.proto` files;
- three command overrides: `clean`, `build_py` and `build_ext`.

The file system is abstract: a map from path to modification time, where a path is present exactly when it exists.
Child processes are reduced to the command line they are given and the status they return.

Modules, one per concern:

- `Wrappers`: `Option`.
- `Text`: several Python string operations and one regular-expression behaviour:
  - `str.startswith`, `str.endswith`, `in` and `str.replace`;
  - what a regular expression's `(.*)` captures.
- `FileSystem`: the `Disk` class holding the file map.
- `FlagGrammar`: the distutils flag forms that `_GetFlagValues` recognises, as a pure scanner specification. It also holds the archive-name pattern of `HasStaticLibprotobufOpt`.
- `Argv`: the `CommandLine` class over `sys.argv`, with these members:
  - `GetOptionFromArgv`, which removes a token in place;
  - `_GetFlagValues` as a loop carrying `flag_match`;
  - `HasStaticLibprotobufOpt`;
  - `HasLibraryDirsOpt`.
- `ProtocLookup`: the module-level `if`/`elif` chain that sets `protoc`.
- `ProtoGen`: one `GenProto` call as a pure decision. It covers the output name, the skip / up-to-date / missing source / no compiler / invoke choice, and the effect of each choice.
- `ProtoRun`: the `Process` class on which `GenProto` prints, writes to standard error, spawns and exits. It runs the calls of `build_py` one after another until one exits. The module also proves what a whole run does.
- `CleanCommand`: `CleanCmd.run` as a nested loop over an `os.walk` listing, removing generated files from the `Disk`.
- `Glob`: `fnmatch.fnmatchcase` for patterns made of `*` and literal characters.
- `PackageModules`: the exclude filter of `BuildPyCmd.find_package_modules`.
- `ExtFilename`: the suffix rewrite of `BuildExtCmd.get_ext_filename`.

## Model

| member | source | states |
|---|---|---|
| Argv.CommandLine.GetOptionFromArgv | python/setup.py:249-253 | returns true exactly when the option is in argv; then argv loses its first occurrence and keeps every other token in order; an absent option leaves argv unchanged |
| Argv.RemoveFirst | python/setup.py:251 | `list.remove`: one element fewer when `x` is present; on an absent `x`, where Python raises `ValueError`, the model returns the list as it is, a case the `in` guard of line 250 makes unreachable |
| Argv.RemoveFirstMultiset | python/setup.py:251 | `list.remove` of a present token takes out one copy of it and no other token |
| Argv.RemoveFirstAt | python/setup.py:251 | `list.remove` deletes exactly the first occurrence: for a list `pre + [x] + post` with `x` not in `pre`, the result is `pre + post` |
| Argv.CommandLine.GetFlagValues | python/setup.py:256-291 | the loop with its pending `flag_match` yields exactly `FlagValues(argv, ...)`, the scanner specification; argv is only read |
| Argv.CommandLine.MatchArg | python/setup.py:273-289 | the inner loop over the compiled expressions yields exactly the values of every expression that matches the argument, and sets `flag_match` exactly when one of them is a bare match |
| Argv.StaticLibRequested | python/setup.py:294-301 | some `link-objects=`/`O` value matches the archive-name pattern; `HasStaticLibprotobufOpt` is proved to return exactly this |
| Argv.CommandLine.HasStaticLibprotobufOpt | python/setup.py:294-301 | true exactly when some `link-objects=`/`O` value matches the archive-name pattern |
| Argv.CommandLine.HasLibraryDirsOpt | python/setup.py:304-306 | true exactly when some `library-dirs=`/`L` value is a non-empty string |
| Argv.AnyTruthy | python/setup.py:306 | `any` over strings is true exactly when some string is non-empty |
| Argv.CppImplementationConsumed | python/setup.py:249-253 | consuming `--cpp_implementation` from a four-token argv leaves the other three in order and the option absent |
| Argv.CppImplementationExample | python/setup.py:249-306 | on `setup.py --cpp_implementation --library-dirs=/x:/y build` the option is found, a later scan for `library-dirs=`/`L` yields `/x:/y`, and asking again finds nothing |
| Text.ReplaceAll | python/setup.py:105 | `str.replace`: occurrences are replaced left to right without overlap; its contract is carried by `ReplaceAllKeepsPrefix`, `ReplaceAllAbsent` and `ReplaceAllAtStart` |
| Text.LineHead | python/setup.py:260-263 | what `(.*)` captures is a newline-free prefix of the text, stopped only by a newline |
| Text.LineHeadNoNewline | python/setup.py:260-263 | on text without a newline `(.*)` captures all of it |
| Text.ReplaceAllKeepsPrefix | python/setup.py:105 | `str.replace` copies unchanged a prefix in which no occurrence starts |
| Text.ReplaceAllAbsent | python/setup.py:105 | `str.replace` of a pattern that does not occur changes nothing |
| Text.ReplaceAllAtStart | python/setup.py:105 | `str.replace` replaces an occurrence at the very start and continues after it |
| FlagGrammar.Classify | python/setup.py:260-289 | one compiled expression on one argument gives no match, a value to yield (the whole argument when no value is expected), or a bare match; its contract is carried by `NoDashNoMatch`, `LongValueForm`, `ShortValueForm` and `BareForms` |
| FlagGrammar.ArgYields | python/setup.py:273-289 | the values the inner loop yields for one argument, in pattern order; its contract is carried by `ArgAppend`, `ArgSnoc` and `ValueFlagArg` |
| FlagGrammar.ArgBare | python/setup.py:273-289 | whether the inner loop sets `flag_match` for one argument; its contract is carried by `ArgAppend`, `ArgSnoc` and `BareForms` |
| FlagGrammar.Scan | python/setup.py:265-289 | the values the outer loop yields, entered with or without a pending match; its contract is carried by `ScanAppend`, `ScanSnoc`, `BareTakesNext`, `BareFlagLast` and `ScanUnpended`, and `GetFlagValues` is proved equal to it |
| FlagGrammar.PendingAfter | python/setup.py:265-289 | whether a match is pending once the outer loop has read the arguments; its contract is carried by `PendingAppend` and `ScanSnoc` |
| FlagGrammar.FlagValues | python/setup.py:256-291 | everything `_GetFlagValues(flag_long, flag_short)` yields over argv, with the helpers `ExpectsValue` (`flag_long.endswith('=')`, line 259), `LongName` (the long name without its `=`, lines 260-261) and `Patterns` (the long expression, then the short one when a short name is given, lines 260-263); `GetFlagValues` is proved equal to it, and `LibraryDirsExample` and `LinkObjectsShortExample` evaluate it |
| FlagGrammar.ScanAppend | python/setup.py:265-271 | scanning a concatenation is scanning the first part, then the second in the pending state the first left |
| FlagGrammar.ArgAppend | python/setup.py:273-289 | the inner loop over two runs of expressions yields what the first run yields followed by what the second yields, and is bare exactly when either run is |
| FlagGrammar.ArgSnoc | python/setup.py:273-289 | one more expression appends the value it yields and sets `flag_match` when it is a bare match |
| FlagGrammar.PendingAppend | python/setup.py:265-271 | whether a value is pending after a concatenation is decided by the second part, entered in the state the first part left |
| FlagGrammar.ScanSnoc | python/setup.py:265-289 | reading one more argument appends it verbatim when a value was pending, and otherwise appends what the argument yields and sets `flag_match` exactly for a bare match |
| FlagGrammar.NoDashNoMatch | python/setup.py:260-263 | an argument that does not start with `-` matches no flag expression |
| FlagGrammar.SpellingsExclusive | python/setup.py:260-263 | for `link-objects=`/`O`-like flags, an argument that matches the long spelling cannot also match the short one |
| FlagGrammar.ValueFlagArg | python/setup.py:273-289 | for such flags, what an argument yields and whether it is bare is the contribution of the long expression followed by the short one |
| FlagGrammar.LongValueForm | python/setup.py:259-261 | for `v` without a newline, `--name=v` and `-name=v` yield exactly `v` (`--name=` yields the empty string) and leave nothing pending |
| FlagGrammar.ShortValueForm | python/setup.py:262-263 | `-Xv` with `v` non-empty and without a newline yields exactly `v` and leaves nothing pending |
| FlagGrammar.BareForms | python/setup.py:280-289 | an argument is a bare match exactly when it is `--name`/`-name` followed by anything but `=`, or `-X` with nothing captured after it; a bare match yields nothing itself |
| FlagGrammar.BareTakesNext | python/setup.py:265-271 | after a bare match the next argument is yielded verbatim, never examined as a flag, and scanning resumes with nothing pending |
| FlagGrammar.BareFlagLast | python/setup.py:265-291 | a bare flag in last position adds no value |
| FlagGrammar.ScanUnpended | python/setup.py:266-289 | arguments that each yield a known list and leave nothing pending yield the concatenation of those lists |
| FlagGrammar.LibraryDirsExample | python/setup.py:304-306 | `setup.py --library-dirs=/x:/y build` yields exactly `/x:/y` for `library-dirs=`/`L` |
| FlagGrammar.LinkObjectsShortExample | python/setup.py:298 | `-O/path/to/libprotobuf.a` yields `/path/to/libprotobuf.a` for `link-objects=`/`O` |
| Argv.StaticLibRequestedAccepts | python/setup.py:294-301 | the argument list `-O/path/to/libprotobuf.a` asks for the static protobuf archive |
| Argv.StaticLibRequestedRejects | python/setup.py:294-301 | the argument list `-O/path/to/other.so` does not |
| FlagGrammar.LibMatch | python/setup.py:297-299 | `lib_re.match(value)`; its contract is carried by `LibMatchNoDir`, `LibMatchInDir`, `LibMatchExtends`, `LibMatchAccepts`, `LibMatchRejectsLite` and `LibMatchRejectsOther` |
| FlagGrammar.LibMatchNoDir | python/setup.py:297 | a value without a slash or backslash matches exactly when the value itself starts with the archive name |
| FlagGrammar.LibMatchInDir | python/setup.py:297 | a directory part ending in a separator followed by a matching archive name matches |
| FlagGrammar.LibMatchExtends | python/setup.py:299 | `re.match` is anchored only at the start: text appended to a matching value keeps it matching |
| FlagGrammar.LibMatchAccepts | python/setup.py:297-300 | `/x/libprotobuf.a` is recognised as the static archive |
| FlagGrammar.LibMatchRejectsLite | python/setup.py:297-300 | `libprotobuf-lite.a` is not |
| FlagGrammar.LibMatchRejectsOther | python/setup.py:297-300 | `/path/to/other.so` is not |
| FlagGrammar.LibArchiveName | python/setup.py:297 | the archive name `libprotobuf.a` is one the pattern accepts |
| FlagGrammar.LibMatchPathAccepts | python/setup.py:297 | `/path/to/libprotobuf.a` matches `lib_re` |
| ProtocLookup.Lookup | python/setup.py:59-74 | the override, then the ordered candidate tests, then the `PATH` search; its contract is carried by `FirstHit`, `OverrideWins`, `LookupPriority` and `LookupFallsBack` |
| ProtocLookup.FindProtoc | python/setup.py:59-74 | the chain as written, with each branch's tested path and assigned path; its contract is carried by `BazelProtocPreferred` and `FindProtocAssignsUnchecked` |
| ProtocLookup.FindProtocChecked | python/setup.py:59-74 | the chain with each branch assigning the path it tested; its contract is carried by `FindProtocCheckedExists` |
| ProtocLookup.FirstHit | python/setup.py:61-72 | the chosen branch is the first whose tested path exists; none is chosen only when no tested path exists |
| ProtocLookup.LookupPriority | python/setup.py:59-72 | an existing `PROTOC` override wins; otherwise the first branch whose tested path exists decides |
| ProtocLookup.OverrideWins | python/setup.py:59-60 | an existing `PROTOC` override wins whatever else exists, also when no tested path exists |
| ProtocLookup.LookupFallsBack | python/setup.py:73-74 | when no override and no tested path exists, `find_executable('protoc')` decides |
| ProtocLookup.BazelProtocPreferred | python/setup.py:61-62 | without an override, an existing `../bazel-bin/protoc` is chosen over every later location |
| ProtocLookup.FindProtocAssignsUnchecked | python/setup.py:65-66 | as written, a compiler present as `protoc` is recorded as `../protoc`, a path that does not exist |
| ProtocLookup.LookupCheckedExists | python/setup.py:59-74 | for any candidate table whose branches each assign the path they test, a compiler taken from the chain exists; only the `PATH` search can give anything else |
| ProtocLookup.FindProtocCheckedExists | python/setup.py:59-74 | with each branch choosing the path it tested, a chosen compiler exists unless it came from the `PATH` search |
| ProtoGen.OutputName | python/setup.py:105 | `.proto` replaced by `_pb2.py`, then `../src/` deleted; its contract is carried by `ProtoSuffixReplaced`, `PbNameKeepsNoRoot` and `OutputNameOfProto` |
| ProtoGen.Stale | python/setup.py:107-109 | the output is missing, or its source exists and is strictly newer; its contract is carried by `NothingWhenUpToDate` and `RegeneratedIsUpToDate` |
| ProtoGen.Decide | python/setup.py:102-124 | the path one call takes: skip, up to date, missing source, no compiler or invoke; its contract is carried by `OptionalMissingSkipped`, `NothingWhenUpToDate`, `MissingSourceFails`, `NoCompilerFails`, `InvokeExactly` and `OnlyCompilerOnSource` |
| ProtoGen.Apply | python/setup.py:110-124 | what each path prints, writes to standard error, spawns and exits with: `GeneratingLine` is the `Generating <output>...` line of line 110, `MissingSourceMessage` the `Can't find required file` line of line 113, `NO_PROTOC_MESSAGE` the message of lines 117-119; its contract is carried by `MissingSourceFails`, `NoCompilerFails`, `StaleRegenerated` and `OnlyCompilerOnSource` |
| ProtoGen.Written | python/setup.py:122-123 | a compiler that exits with 0 has written the output; its contract is carried by `StaleRegenerated`, `NothingWhenUpToDate` and `RegeneratedIsUpToDate` |
| ProtoGen.ProtocCommand | python/setup.py:122 | the compiler command has five arguments, the compiler first and the source last |
| ProtoGen.ProtoSuffixReplaced | python/setup.py:105 | in `../src/p.proto` or `p.proto` with `p` dot-free, only the final `.proto` is replaced by `_pb2.py` |
| ProtoGen.ProtoSuffixOfName | python/setup.py:105 | a dot-free name followed by `.proto` has exactly that suffix replaced |
| ProtoGen.SrcRootKept | python/setup.py:105 | no `.proto` occurrence starts inside the leading `../src/`, so replacing the suffix keeps the root |
| ProtoGen.PbNameKeepsNoRoot | python/setup.py:105 | deleting `../src/` leaves `p_pb2.py` unchanged when `p` is dot-free |
| ProtoGen.OutputNameOfProto | python/setup.py:105 | `../src/p.proto` and `p.proto` with `p` dot-free become `p_pb2.py`; so `../src/google/protobuf/any.proto` becomes `google/protobuf/any_pb2.py` |
| ProtoGen.OptionalMissingSkipped | python/setup.py:102-103 | an optional source that does not exist has no effect at all, and the file map is unchanged at any time `now` |
| ProtoGen.NothingWhenUpToDate | python/setup.py:107-109 | an existing output whose source is missing or not newer is left alone, required or not, including at equal times; the file map is unchanged at any time `now` |
| ProtoGen.MissingSourceFails | python/setup.py:107-114 | a required missing source with no output prints the `Generating` line, names the source on standard error and exits with -1, whatever the compiler lookup gave |
| ProtoGen.NoCompilerFails | python/setup.py:116-120 | a stale output with no compiler prints the `Generating` line, writes the not-installed message and exits with -1 |
| ProtoGen.StaleRegenerated | python/setup.py:107-124 | a stale output with a source and a compiler spawns exactly `[protoc, '-I../src', '-I.', '--python_out=.', source]`; the run continues exactly when the status is 0 and otherwise exits with -1; success writes the output |
| ProtoGen.InvokeExactly | python/setup.py:107-124 | the compiler is spawned exactly when the source exists, the output is stale and a compiler was found |
| ProtoGen.OnlyCompilerOnSource | python/setup.py:110-124 | one call exits, if at all, with -1, and spawns nothing or exactly the compiler command on its own source, given that the compiler could be started |
| ProtoGen.RegeneratedIsUpToDate | python/setup.py:92-109 | once the compiler has written the output no earlier than the source, the same call finds the output up to date |
| ProtoRun.Step | python/setup.py:92-124 | one `GenProto` call on a process that has not exited; `Process.GenProto` is proved equal to it, and `StepOnlyCompilerCalls` and `StepQuiets` state what it does |
| ProtoRun.Resume | python/setup.py:188-202 | the remaining calls, made in order until one exits; `Process.GenProtos` is proved equal to it, and `ResumeAppend`, `ResumeOnlyCompilerCalls`, `QuietResume` and `ResumeQuiets` state what it does |
| ProtoRun.Stage | python/setup.py:188-202 | a whole run from no effects; its contract is carried by `StageOnlyCompilerCalls` and `SecondRunQuiet` |
| ProtoRun.Process.GenProto | python/setup.py:92-124 | the imperative call changes the process and the file system exactly as the decision `Step` prescribes |
| ProtoRun.Process.GenProtos | python/setup.py:127-167 | calling `GenProto` in turn until one exits has exactly the effect of `Resume` over the calls |
| ProtoRun.Process.GenerateUnittestProtos | python/setup.py:127-167 | the 36 optional unittest protos, in source order |
| ProtoRun.Process.BuildPyGenerate | python/setup.py:188-202 | the 12 required core protos, then the unittest protos, as one run |
| ProtoRun.ResumeAppend | python/setup.py:188-202 | running two lists of calls one after the other is running their concatenation |
| ProtoRun.ResumeOnlyCompilerCalls | python/setup.py:110-124 | a run only ever exits with -1 and only spawns the compiler command on its calls' sources, given that every spawn starts |
| ProtoRun.StepOnlyCompilerCalls | python/setup.py:110-124 | one more call on a source of the run keeps that property |
| ProtoRun.StageOnlyCompilerCalls | python/setup.py:110-124 | the same for a run started on any file system |
| ProtoRun.QuietResume | python/setup.py:102-109 | when every call has nothing to do, a run prints nothing, spawns nothing and changes nothing |
| ProtoRun.QuietAfterWrite | python/setup.py:107-109 | a compiler write stamped no earlier than a call's source, to a file that is not that source, keeps that call with nothing to do |
| ProtoRun.StepQuiets | python/setup.py:102-124 | given earlier calls with nothing to do, compiler writes stamped no earlier than every source, and no output that is another call's source: a call that does not end the run leaves itself and every earlier call with nothing to do |
| ProtoRun.ResumeQuiets | python/setup.py:102-124 | when the compiler's writes are stamped no earlier than every source and no output is another call's source, a run that does not exit leaves every one of its calls with nothing to do |
| ProtoRun.SecondRunQuiet | python/setup.py:188-202 | when the compiler's writes are stamped no earlier than every source and no output is another call's source, building twice does nothing the second time |
| CleanCommand.IsGenerated | python/setup.py:178-179 | a path ending in `_pb2.py`, `.pyc`, `.so` or `.o`; `Cleaned`, `RemoveOne` and `CleanRun` state what is removed in its terms |
| CleanCommand.Walked | python/setup.py:175-177 | every path `os.walk` lists, joined to its directory; `CleanRun` is proved to clean exactly these paths |
| CleanCommand.Join | python/setup.py:177 | `os.path.join` ends with the file name and, for a relative name, starts with the directory |
| CleanCommand.Cleaned | python/setup.py:175-180 | a path survives exactly when it is not both walked and generated, with its time unchanged |
| CleanCommand.CleanedTwice | python/setup.py:175-180 | cleaning one set of paths after another is cleaning both |
| CleanCommand.CleanIdempotent | python/setup.py:175-180 | a second clean over paths already walked deletes nothing |
| CleanCommand.CleanRemovesAllGenerated | python/setup.py:175-180 | when the walk lists every existing file, no generated file survives the clean |
| CleanCommand.CleanTreeIdempotent | python/setup.py:175-180 | when the first walk lists every existing file, a second clean deletes nothing whatever its walk lists |
| CleanCommand.RemoveOne | python/setup.py:178-180 | one iteration removes the path exactly when it is generated |
| CleanCommand.CleanDir | python/setup.py:176-180 | the loop over one directory's files removes exactly its generated files |
| CleanCommand.CleanRun | python/setup.py:173-180 | the walk removes exactly the walked files ending in `_pb2.py`, `.pyc`, `.so` or `.o`, and keeps every other file as it was |
| Glob.GlobMatch | python/setup.py:216 | `fnmatch.fnmatchcase` on `*` and literal characters; its contract is carried by the `Glob` lemmas below |
| Glob.GlobLiteral | python/setup.py:216 | a pattern without `*` matches only itself |
| Glob.GlobStarAll | python/setup.py:216 | `*` matches every name, separators included |
| Glob.GlobLeadingStar | python/setup.py:216 | `*q` matches exactly when some suffix matches `q` |
| Glob.GlobLiteralPrefix | python/setup.py:216 | a literal prefix of the pattern must be a prefix of the name |
| Glob.GlobLiteralThenStar | python/setup.py:216 | `lit*` matches exactly the names starting with `lit` |
| Glob.GlobStarThenLiteral | python/setup.py:216 | `*lit` matches exactly the names ending with `lit` |
| Glob.GlobContains | python/setup.py:216 | `*lit*` matches exactly the names containing `lit` |
| Glob.GlobAround | python/setup.py:216 | `a*b` matches exactly the names starting with `a` and ending with `b` without overlap |
| PackageModules.AnyMatch | python/setup.py:216 | `any(fnmatchcase(...))` is true exactly when some pattern matches |
| PackageModules.Excluded | python/setup.py:208-216 | some exclude pattern matches the file; its contract is carried by `AnyMatch` and `ExcludedIff` |
| PackageModules.FindPackageModules | python/setup.py:207-216 | the result is never longer, and holds exactly the modules found whose file is not excluded |
| PackageModules.FindPackageModulesAppend | python/setup.py:215-216 | the filter keeps the order found: filtering a concatenation concatenates the filtered parts |
| PackageModules.ExcludedIff | python/setup.py:208-213 | a file is excluded exactly when it contains `test`, is a `_pb2.py` under `_google/protobuf/internal/`, or is one of the two named files |
| ExtFilename.GetExtFilename | python/setup.py:230-235 | the suffix rewrite; its contract is carried by `ExtSuffixReplaced`, `ExtUnchanged`, `ExtRoundTrip` and `EmptyExtSuffixReplacesName` |
| ExtFilename.ExtSuffixReplaced | python/setup.py:230-235 | with a non-empty override and a name ending in `EXT_SUFFIX`, only that suffix is replaced and the name ends with the override |
| ExtFilename.ExtUnchanged | python/setup.py:230-235 | without an override, with an empty one, or with a name not ending in `EXT_SUFFIX`, the name is unchanged |
| ExtFilename.ExtRoundTrip | python/setup.py:230-235 | rewriting one suffix to another and back restores the name |
| ExtFilename.EmptyExtSuffixReplacesName | python/setup.py:234 | with an empty `EXT_SUFFIX` the whole name is replaced by the override, because `s[:-0]` is empty |

Two behaviours follow the code rather than a looser reading of the script's intent:

- A failing compiler makes the script exit with -1. It does not propagate the compiler's own status.
- A required source that is missing is an error only when its output must be regenerated. An existing output with a missing source is left alone.

## Left out

- Child processes are not run:
  - `subprocess.call` of the compiler becomes a given status and a write of the output;
  - `bazel test` in `TestConformanceCmd` and `$CC --version` are not part of this model.
- The file system is a given map: `os.path.exists` and `getmtime` read it, and `os.remove` deletes from it. The `glob` of sources and archives is not part of this model.
- `CleanCommand.CleanRun`: the `os.walk` listing is a given sequence of directory entries, not derived from the map. `CleanIdempotent` assumes the second walk lists only paths the first one listed; `CleanTreeIdempotent` drops that assumption when the first walk lists every existing file. `Join` follows `posixpath.join`; on Windows `ntpath.join` inserts `\` instead of `/`.
- `ProtoGen.OnlyCompilerOnSource`, `ProtoRun.StepOnlyCompilerCalls`, `ProtoRun.ResumeOnlyCompilerCalls` and `ProtoRun.StageOnlyCompilerCalls`: a spawn that fails is not modelled. The compiler is represented only by the status it returns. When `protoc` names a missing or non-executable file, `subprocess.call` raises instead. The script then ends with an error and status 1, not through `sys.exit(-1)`. The lookup as written yields such a path when only `protoc` exists.
- When the compiler succeeds, it is assumed to write exactly the computed output path at a given time `now`, and nothing else.
- `print` and `sys.stderr.write` become lines recorded on the `Process`. `sys.exit` becomes its recorded status, after which no further call is made.
- `find_executable('protoc')` is a given optional path, and the environment is a given map.
- `GetVersion` (an `exec` of `__init__.py`) and the `setup(...)` metadata call are packaging plumbing and are not modelled.
- The `Extension` assembly and the compiler and linker flag lists are platform configuration and are not modelled:
  - the macOS deployment-target rewrite;
  - the environment writes;
  - the removal of `--warnings_as_errors`, which is `GetOptionFromArgv` again.
- The distutils and setuptools base classes are not modelled. `_build_py.find_package_modules` and `_build_ext.get_ext_filename` become inputs. `_clean.run` and `_build_py.run` are not part of this model.
- `FlagGrammar.Patterns`: flag names are read as literal text, not as regular expressions. This is exact for every name the script passes.
- `Glob.GlobMatch`: only `*` and literal characters are modelled, which is all the four exclude patterns use.
- `CleanCommand.CleanRun`: `os.remove` raising on a path that is already gone is not modelled. Removing a path the map lacks changes nothing, so a listing that names a missing file, or one file twice, does not stop the run as it would in Python.
- `ExtFilename.GetExtFilename`: `EXT_SUFFIX` is taken to be a string. When it is `None` and the override is non-empty, the script raises on `endswith`; with no override or an empty one, the `and` short-circuits and the name is returned unchanged, as modelled.
- `ProtoRun.SecondRunQuiet`, `ProtoRun.ResumeQuiets` and `ProtoRun.StepQuiets`: proved for any list of calls in which no output is another call's source, with every compiler write stamped at a time no earlier than every source's mtime. Neither hypothesis is discharged for the script's two literal lists or for a real clock. A source dated in the future stays newer than its fresh output, so the call stays stale.
- `ProtoGen.OutputNameOfProto`: stated for dot-free stems under `../src/` or the current directory, which covers every source the script names, rather than computed for each literal path.

## Findings

| source | as written | input that shows it | evidently intended | confidence | as-written member | corrected member |
|---|---|---|---|---|---|---|
| python/setup.py:65-68 | the branch tests `protoc` (and `protoc.exe`) in the current directory but assigns `../protoc` (`../protoc.exe`) | a compiler at `protoc` only, no `PROTOC` override: the chain yields `../protoc`, which does not exist | assign the path that was tested, so a compiler taken from the chain exists | medium, not executed | ProtocLookup.FindProtocAssignsUnchecked | ProtocLookup.FindProtocCheckedExists |
