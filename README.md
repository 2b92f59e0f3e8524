# Conjunct's command-line rewriting and pipeline, in Dafny

Conjunct is a wrapper around clang. For an object compilation step (a command line with `-c`) it runs three commands in a temporary directory:

1. clang emits LLVM bitcode;
2. opt runs the configured passes on that bitcode;
3. clang compiles the optimised bitcode to the object file the build asked for.

For any other step it hands the command line to the original clang unchanged. This project models that core and proves properties of it:

- the argument-vector primitives;
- the source-file classifiers;
- the vector each stage derives from the invocation;
- the stage sequencing with its temp-dir and dry-run rules;
- the choice of the clang binary.

Modules (one file each):

- `Wrappers` (`Option`), `Text` (`strings.HasPrefix/HasSuffix/TrimSuffix/Join`) and `FilePath` (`filepath.Base/Ext/Join` with Unix semantics) model the parts of Go's standard library that the core relies on.
- `ArgsParser` covers argsparser/argsparser.go.
  - Each primitive is a function on `seq<string>`.
  - Each Go loop is a method proved to compute that function: `ScanHasArg`, `ScanGetArgVal`, `FilterRegexArg` and `ScanSourceFileName`.
  - `RemoveArgInPlace` performs RemoveArg on an `array`, the way `append(args[:i], args[i+1:]...)` shifts the caller's backing array.
- `Util` and `SourceFile` cover the two extension classifiers and the base-name helper.
- `Cli` covers main.go's `getClangBinaryName` and the `.original` clang path preference.
- `Core` covers the per-stage derivations of core/core.go as pure functions:
  - the emitBitcode vector;
  - the opt command line;
  - the buildBitcode vector and its `-o` lookup.
- `Pipeline` describes emitBitcode, schedulePasses, buildBitcode, RunOriginalClang and RunConjunct as functions of an `Oracle`.
  - The oracle answers: temp-dir creation, file creation, `util.ExpandPath`, and how each command ends.
  - Each function returns the outcome together with the trace of events: temp dir made, file created, command run, temp dir removed.
  - The lemmas state the ordering and "what ran" properties over the trace.
- `Runner` is the imperative form of the same orchestration.
  - A `Host` class holds the oracle and a `trace` field that its methods append to.
  - `EmitBitcode`, `SchedulePasses`, `BuildBitcode`, `RunOriginalClang` and `RunConjunct` are methods with early returns.
  - Each method is proved to return exactly the `Pipeline` function's outcome and to extend `trace` by exactly its events.
  - `SchedulePasses` builds opt's command line with a loop over the map, picking keys in an unspecified order. The order it picked is returned as a ghost output.

Go panics on these paths are modelled as outcomes:

- an out-of-range slice in `RemoveArg(..., true)` when the flag is the last element;
- `RunOriginalClang` with an empty clang path.

Go map iteration order is a parameter `order` with `IsKeyOrder(order, m)`. The lemmas that do not depend on it state the rendered entries as the multiset `Rendered(m)`.

Where main.go and core/core.go disagree, this model follows core/core.go:

- main.go calls `core.RunClang` and a three-argument `core.RunConjunct`;
- core/core.go declares `RunOriginalClang` and `RunConjunct(cfg, args)`, which reads `cfg.ClangPath`.

In this model `Config.clangPath` is the path that `Cli.ClangPath` chooses.

## Model

| member | source | states |
|---|---|---|
| ArgsParser.IndexOfAppend | argsparser/argsparser.go:27-28 | in a concatenation the first match is the first one of the prefix when there is one, and otherwise the prefix length plus the first match in the rest |
| ArgsParser.IndexOf | argsparser/argsparser.go:27-28 | the first index holding the target, with no earlier one; equal to the length exactly when the target is absent |
| ArgsParser.RemoveArg | argsparser/argsparser.go:23-39 | the vector is unchanged exactly when the target is empty or absent; requires that a removal with value does not hit the out-of-range slice (match is not the last element) |
| ArgsParser.RemoveArgFirstOccurrence | argsparser/argsparser.go:27-35 | without the value: one element fewer and one copy of the target fewer, all other counts unchanged |
| ArgsParser.RemoveArgWithValue | argsparser/argsparser.go:29-31 | with the value: two elements fewer, and the multiset loses exactly the first match and the element after it |
| ArgsParser.RemoveArgSubset | argsparser/argsparser.go:23-39 | the result is a sub-multiset of the input |
| ArgsParser.RemoveArgKeepsPrefix | argsparser/argsparser.go:27-36 | a prefix that does not contain the target survives untouched |
| ArgsParser.RemoveArgKeepsAbsent | argsparser/argsparser.go:23-39 | an element absent from the vector is absent from the result |
| ArgsParser.RemoveArgOfAppend | argsparser/argsparser.go:27-31 | a match whose value lies inside a prefix is removed there, whatever is appended, and that removal cannot panic |
| ArgsParser.RemoveArgLastOfAppend | argsparser/argsparser.go:27-31 | a match as the prefix's last element takes the first appended element as its value |
| ArgsParser.RemoveArgMultiset | argsparser/argsparser.go:27-35 | without the value, the multiset loses one target if there is one and nothing otherwise |
| ArgsParser.ShiftLeft | argsparser/argsparser.go:30-33 | one `append(args[:i], args[i+1:]...)` in the backing array: the first n-1 cells are the slice with element i cut out, the last cell of the slice and the cells past it unchanged |
| ArgsParser.ShiftLeftTwice | argsparser/argsparser.go:30-31 | the two shifts of a removal with value: the first n-2 cells are the slice with elements i and i+1 cut out, and both vacated cells hold the old last element |
| ArgsParser.CutOut | argsparser/argsparser.go:29-34 | one or two shifts cut `a[i..i+k]` out of the slice; the vacated cells hold the old last element |
| ArgsParser.FindArg | argsparser/argsparser.go:27-28 | the scanning loop finds the first index of the target (IndexOf) |
| ArgsParser.RemoveArgInPlace | argsparser/argsparser.go:23-39 | the in-place removal on the array leaves the new slice equal to RemoveArg of the old one, and says what the cells past it hold |
| ArgsParser.Keep | argsparser/argsparser.go:47-55 | no kept element matches |
| ArgsParser.KeepCounts | argsparser/argsparser.go:49-54 | every copy of a matching element is dropped and every copy of a non-matching one is kept |
| ArgsParser.KeepConcat | argsparser/argsparser.go:49-54 | filtering works element by element, so the relative order is kept |
| ArgsParser.KeepNothingToRemove | argsparser/argsparser.go:49-54 | a vector without matching elements is returned as is |
| ArgsParser.RemoveRegexArg | argsparser/argsparser.go:43-56 | an empty expression leaves the vector unchanged; otherwise no matching element is left |
| ArgsParser.RemoveRegexArgCounts | argsparser/argsparser.go:47-55 | with a non-empty expression every copy of a matching element goes, every copy of another stays, so nothing is added |
| ArgsParser.FilterRegexArg | argsparser/argsparser.go:43-56 | the accumulating loop computes RemoveRegexArg |
| ArgsParser.AddArg | argsparser/argsparser.go:60-69 | the old vector is a prefix; an empty flag adds nothing, otherwise the flag, then its value only if it is non-empty |
| ArgsParser.HasArg | argsparser/argsparser.go:72-82 | true exactly when the target is non-empty and occurs |
| ArgsParser.ScanHasArg | argsparser/argsparser.go:72-82 | the early-return scan computes HasArg |
| ArgsParser.GetArgVal | argsparser/argsparser.go:85-95 | the element after the first match; "" for an empty or absent target or a match in last position |
| ArgsParser.ScanGetArgVal | argsparser/argsparser.go:85-95 | the early-return scan computes GetArgVal (only the last match position lacks a successor) |
| ArgsParser.AddArgThenHasArg | argsparser/argsparser.go:60-82 | after adding a non-empty flag, HasArg finds it |
| ArgsParser.AddArgThenGetArgVal | argsparser/argsparser.go:60-95 | adding a new flag with a value and looking it up gives that value |
| ArgsParser.AddArgThenRemoveArg | argsparser/argsparser.go:23-69 | removing a newly added flag (with its value when it has one) restores the vector, and that removal cannot panic |
| ArgsParser.FirstIndexWhere | argsparser/argsparser.go:124-131 | the first element satisfying the test, with none before it, or the length |
| ArgsParser.IsSourceLike | argsparser/argsparser.go:124-129 | an element whose base name has a known extension; the scan over it is stated by GetSourceFileNameByScan and ScanSourceFileName |
| ArgsParser.GetSourceFileName | argsparser/argsparser.go:106-134 | no error exactly when the type is known; "not found" comes with an empty name; a name is always its own base name |
| ArgsParser.ScanLookup | argsparser/argsparser.go:123-133 | the fallback scan: no error exactly when the type is known; "not found" with an empty name; a name is its own base name |
| ArgsParser.GetSourceFileNameFromCompileValue | argsparser/argsparser.go:108-121 | a non-empty `-c` value decides alone: its base name, its type, and an error exactly when the extension is unknown |
| ArgsParser.GetArgValInPrefix | argsparser/argsparser.go:89-93 | a flag whose first occurrence has its value inside a prefix gets the same value whatever is appended |
| ArgsParser.GetSourceFileNameNoFallback | argsparser/argsparser.go:108-121 | with a `-c` value no scan happens: later elements never change the result |
| ArgsParser.GetSourceFileNameByScan | argsparser/argsparser.go:123-133 | without a `-c` value: success exactly when some element is source-like, and then the base name of the first one; otherwise ("", Unknown, not found) |
| ArgsParser.ScanSourceFileName | argsparser/argsparser.go:106-134 | the Go loop with its early returns computes GetSourceFileName |
| ArgsParser.GetSourceFileNameExample | argsparser/argsparser.go:108-120 | `-c x/foo.cpp bar.c` gives foo.cpp as C++, even with a C file after it |
| Util.FetchSourceFileType | util/util.go:111-129 | no error exactly when the type is known; the error names the extension |
| Util.InTableIsMembership | util/util.go:113-127 | each table loop finds the extension exactly when it is one of the table's entries |
| Util.FetchSourceFileTypeTable | util/util.go:105-128 | .cpp/.cc/.cxx/.c++ give CPP, .m gives OBJC, .c gives C, by exact comparison |
| Util.GetBasenameWithoutExtension | util/util.go:65-68 | the result followed by the extension of the base name is the base name |
| Util.BasenameOfBitcodeFile | util/util.go:65-68 | for `dir/n.bc` the result is `n`, whatever extension n has itself |
| Util.FetchSourceFileTypeOfC | util/util.go:111-128 | hello.c is C |
| Util.FetchSourceFileTypeOfBitcode | util/util.go:111-128 | only the last extension counts: /t/hello.c.bc is Unknown |
| Util.FetchSourceFileTypeOfCpp | util/util.go:111-128 | foo.cpp is CPP with no error |
| Util.FetchSourceFileTypeCaseSensitive | util/util.go:111-128 | foo.C is Unknown: the comparison is case-sensitive |
| SourceFile.FetchTypeUnknown | sourcefile/sourcefile.go:24-42 | Unknown exactly when the extension is in none of the three tables |
| SourceFile.FetchType | sourcefile/sourcefile.go:24-42 | sourcefile's classifier, stated by FetchTypeUnknown, FetchTypeOnlyByExtension and FetchTypeAgreesWithUtil |
| SourceFile.FetchTypeOnlyByExtension | sourcefile/sourcefile.go:25 | paths with the same extension get the same type |
| SourceFile.FetchTypeAgreesWithUtil | sourcefile/sourcefile.go:9-22 | FetchType and util's FetchSourceFileType agree under the codes 1/2/3/-1 |
| SourceFile.GetSourceFileName | sourcefile/sourcefile.go:53-73 | without a `-c` value, an Unknown result has an empty name |
| SourceFile.GetSourceFileNameOfCompileValue | sourcefile/sourcefile.go:55-60 | a non-empty `-c` value gives its base name and that name's type, Unknown included |
| SourceFile.GetSourceFileNameByScan | sourcefile/sourcefile.go:62-72 | without a `-c` value: a known type exactly when some element has one, then the first such element's base name; otherwise ("", Unknown) |
| SourceFile.GetSourceFileNameAgrees | sourcefile/sourcefile.go:53-73 | names the same file as argsparser's variant, with the corresponding type |
| Cli.ClangBinaryName | main.go:124-148 | the result is the program name, clang or clang++ |
| Cli.ClangBinaryNameKeepsClangName | main.go:130-133 | a program name other than conjunct that starts with clang is kept, whatever the source type |
| Cli.ClangBinaryNameBySourceType | main.go:140-147 | otherwise C gives clang, and everything else (C++, Objective-C, Unknown) gives clang++ |
| Cli.ClangPath | main.go:110-118 | `dir/name.original` exactly when that file exists, otherwise `dir/name` |
| FilePath.Base | argsparser/argsparser.go:111 | never empty; "." for the empty path; "/" or "." or free of '/' |
| FilePath.BaseIsLastElement | argsparser/argsparser.go:111 | for a path that is not empty once trailing slashes go, the base is a suffix of it free of '/', either all of it or right after a '/' (IsLastElement) |
| FilePath.BaseOfPlainName | argsparser/argsparser.go:111 | a non-empty name without '/' is its own base |
| FilePath.Ext | util/util.go:112 | a suffix of the path that is empty or starts with its only '.' and has no '/'; empty only when the last element has no '.' |
| FilePath.Join | core/core.go:27 | `dir/name` for a non-empty directory and name |
| FilePath.BaseIdempotent | sourcefile/sourcefile.go:58 | the base name of a base name is itself |
| FilePath.BaseOfJoin | core/core.go:27 | the base of `dir/name` is name when name has no '/' |
| FilePath.ExtOfSuffix | util/util.go:112 | the extension of `a.x` is `.x` when x has no '.' or '/' |
| Text.TrimSuffix | util/util.go:67 | with the suffix present, result plus suffix is the input; otherwise the input |
| Text.HasPrefix | main.go:131 | strings.HasPrefix; used by ClangBinaryNameKeepsClangName and JoinStartsWithFirst |
| Text.HasSuffix | util/util.go:67 | strings.HasSuffix, the test inside strings.TrimSuffix; used by the contracts of TrimSuffix and Ext |
| Text.Join | core/core.go:105 | strings.Join, stated by JoinLength and JoinStartsWithFirst |
| Text.JoinLength | core/core.go:105 | the joined string has the parts' total length plus one separator between each two parts |
| Text.JoinStartsWithFirst | core/core.go:105 | the joined string starts with the first part |
| Core.SanitizerFlagHasEquals | core/core.go:48 | every string `-fsanitize=[a-z,]+` matches contains '=' |
| Core.SanitizerFlag | core/core.go:49 | an unanchored match of `-fsanitize=[a-z,]+`, stated by SanitizerFlagHasEquals, AppendedFlagsAreNoSanitizerFlags and EmitKept |
| Core.EmitStrip | core/core.go:38-43 | the five flag removals, stated by EmitStripMultiset and EmitStripNoFlags |
| Core.EmitStripMultiset | core/core.go:38-43 | the first five removals take away one -g, one -gmodules, up to two -fembed-bitcode and one -fembed-bitcode-marker |
| Core.EmitKept | core/core.go:38-48 | no sanitizer flag survives the emitBitcode removals |
| Core.OutputRemovalMultiset | core/core.go:44 | the `-o` removal takes away `-o` and the element after it when `-o` is there |
| Core.EmitKeptCounts | core/core.go:38-48 | element by element, the kept count is the original count less the five flags and the `-o` pair, and zero for a sanitizer flag |
| Core.EmitAdditionsShape | core/core.go:49-60 | the additions are exactly `-emit-llvm -o <bitcode> -Wno-unused-command-line-argument` appended |
| Core.EmitAdditions | core/core.go:50-60 | the three AddArg calls, stated by EmitAdditionsShape and EmitAdditionsNoSanitizer |
| Core.EmitArgsShape | core/core.go:36-60 | the emitBitcode vector is the kept part followed by those four elements |
| Core.EmitArgs | core/core.go:36-60 | emitBitcode's vector, stated by EmitArgsShape, EmitArgsNoSanitizer and EmitArgsOfPlainCompile |
| Core.AppendedFlagsAreNoSanitizerFlags | core/core.go:49-60 | none of the appended flags is a sanitizer flag |
| Core.EmitAdditionsNoSanitizer | core/core.go:48-60 | appending the additions keeps a vector free of sanitizer flags |
| Core.EmitArgsNoSanitizer | core/core.go:36-60 | the emitBitcode vector holds no sanitizer flag at all |
| Core.EmitStripNoFlags | core/core.go:38-43 | without any of the five flags the first removals change nothing |
| Core.EmitStripOfPlainCompile | core/core.go:38-43 | `-c src -o out` with plain names contains none of the five flags, so their removals change nothing |
| Core.OutputRemovalOfPlainCompile | core/core.go:44 | for `-c src -o out` the `-o` removal cannot panic and leaves `-c src` |
| Core.EmitKeptOfPlainCompile | core/core.go:36-48 | for `-c src -o out` the kept part is `-c src` |
| Core.EmitAdditionsOfSource | core/core.go:49-60 | appending to `-c src` gives `-c src -emit-llvm -o <bitcode> -W...` |
| Core.EmitArgsOfPlainCompile | core/core.go:36-60 | for `-c src -o out` emitBitcode runs `-c src -emit-llvm -o <bitcode> -Wno-unused-command-line-argument` |
| Core.OptOutputNameOfBitcode | core/core.go:92-94 | the opt output for the emitted `dir/n.bc` is `n.opt.bc` |
| Core.OptOutputName | core/core.go:92-94 | `<base without extension>.opt.bc`, stated by OptOutputNameOfBitcode |
| Core.RenderExtra | core/core.go:110-112 | one rendered entry per key in the order |
| Core.RenderExtraSnoc | core/core.go:110-112 | visiting one more key appends its `k=v` entry at the end |
| Core.RenderedRemove | core/core.go:110-112 | the rendered multiset does not depend on which key comes first |
| Core.RenderExtraMultiset | core/core.go:110-112 | every key order renders the same multiset of `k=v` entries |
| Core.RenderedSize | core/core.go:110-112 | as many rendered entries as map entries |
| Core.OptCommandLineShape | core/core.go:104-114 | `-passes=<joined> input -o output`, then the entries as the multiset Rendered(extra): `4 + |extra|` elements |
| Core.OptCommandLine | core/core.go:104-114 | schedulePasses' command line for a key order, stated by OptCommandLineShape |
| Core.KeyOrderExists | core/core.go:110-112 | every map has an iteration order |
| Core.BuildIrArgs | core/core.go:152-153 | the first `-x` pair removed and `-x ir` appended |
| Core.BuildIrArgsSafe | core/core.go:152-154 | after `-x ir` is appended the `-c` removal cannot panic |
| Core.BuildCompileShape | core/core.go:154-163 | the first `-c` pair removed, then `-c <bitcode> -W...` appended |
| Core.BuildCompile | core/core.go:154-163 | the `-c` rewrite and the warning flag, stated by BuildCompileShape and BuildCompileKeepsPrefix |
| Core.BuildArgsWithCompileValue | core/core.go:151-163 | with a `-c` that has a value (once the first `-x` pair is gone), that pair is cut out and `-x ir -c <bitcode> -W...` is appended |
| Core.BuildArgsWithoutCompile | core/core.go:151-163 | with no `-c`, the vector less its first `-x` pair is followed by `-x ir -c <bitcode> -W...` |
| Core.BuildArgsCompileLast | core/core.go:151-163 | with `-c` last, its removal takes the appended `-x` with it and leaves a stray `ir` before `-c <bitcode> -W...` |
| Core.BuildArgsShape | core/core.go:151-163 | the buildBitcode vector in its three cases: `-c` with a value, no `-c`, and `-c` last (a stray `ir` remains) |
| Core.BuildArgs | core/core.go:151-163 | buildBitcode's vector, stated by BuildArgsShape, its three case lemmas and BuildArgsKeepPrefix |
| Core.BuildCompileKeepsPrefix | core/core.go:154-163 | a prefix without `-c` is kept by the compile rewrite |
| Core.BuildArgsKeepPrefix | core/core.go:151-163 | a prefix without `-x` and `-c` is kept |
| Core.BuildOutputOfLeadingOutput | core/core.go:151-164 | when `-o` and its value come before any `-x` or `-c`, buildBitcode's output is that value |
| Core.BuildOutputMissing | core/core.go:164-167 | with no `-o` anywhere the output is "" (the "missing -o argument" failure) |
| Core.BuildOutput | core/core.go:164-167 | the `-o` value of the build vector, stated by BuildOutputOfLeadingOutput, BuildOutputMissing and BuildArgsOfPlainCompile |
| Core.BuildArgsOfPlainCompileVector | core/core.go:151-163 | for `-c src -o out` the vector is `-o out -x ir -c <bitcode> -W...` |
| Core.BuildArgsOfPlainCompile | core/core.go:151-164 | the same, and the output is out |
| Pipeline.EmitStage | core/core.go:18-79 | creation first; a path only after expansion; a panic exactly when the file was created and expanded and `-o` is the last element; in a dry run only the file is created; on success exactly one clang run with the emit vector, which succeeded |
| Pipeline.OptStage | core/core.go:82-134 | never panics; creation first; a path only after expansion; in a dry run only the file is created; on success exactly one opt run with the command line for the expanded output, which succeeded |
| Pipeline.BuildStage | core/core.go:145-190 | panics exactly for the `-x`-last vector; fails with no event when there is no `-o` value; nothing runs in a dry run; on success returns the `-o` value after one successful clang run |
| Pipeline.RunOriginalClang | core/core.go:298-317 | panics exactly on an empty path; otherwise one run; an exit code is returned exactly for a non-zero exit, and it is that code |
| Pipeline.DryRunTail | core/core.go:282-292 | the events of RunOriginalClang; success exactly when it returned no error |
| Pipeline.Passthrough | core/core.go:225-232 | the events of RunOriginalClang alone |
| Pipeline.AfterOpt | core/core.go:273-292 | build, then the dry-run tail; stated by AfterOptRuns and AfterOptFailure |
| Pipeline.AfterEmit | core/core.go:263-292 | opt, then AfterOpt; stated by AfterEmitEvents, AfterEmitOrder, AfterEmitSuccess, AfterEmitDryRun and AfterEmitFailure |
| Pipeline.Stages | core/core.go:248-292 | the source name, then emit and AfterEmit, stopping at the first failure; stated by StagesEvents, StagesOrder, StagesSuccess, StagesDryRun and StagesFirstFailure |
| Pipeline.StrippedArgs | core/core.go:221 | the vector less its first `--conjunct-dry-run`, stated by StrippedArgsRemovesOneFlag |
| Pipeline.RunConjunct | core/core.go:208-295 | the whole compilation step, stated by the RunConjunct* lemmas below |
| Pipeline.EmitStageRuns | core/core.go:62-78 | emit runs nothing in a dry run, otherwise at most clang, and on success exactly the emit vector |
| Pipeline.OptStageRuns | core/core.go:116-133 | opt runs nothing in a dry run, otherwise at most opt, and on success exactly its command line |
| Pipeline.BuildStageRuns | core/core.go:169-187 | build runs nothing in a dry run, otherwise at most clang |
| Pipeline.DryRunTailRuns | core/core.go:282-292 | the dry-run tail runs at most original clang with the given vector |
| Pipeline.AfterOptRuns | core/core.go:273-292 | from build on: only stage events, at most one run without dry run, the build vector on success |
| Pipeline.AfterEmitEvents | core/core.go:263-292 | from opt on, every event is a file creation or a run |
| Pipeline.AfterEmitOrder | core/core.go:263-281 | without dry run, from opt on the binaries run are a prefix of opt, clang |
| Pipeline.AfterEmitSuccess | core/core.go:263-294 | on success without dry run, opt read the emitted file and clang compiled opt's expanded output |
| Pipeline.AfterEmitDryRun | core/core.go:263-292 | in a dry run, from opt on at most original clang runs, and on success it did |
| Pipeline.StagesEvents | core/core.go:248-292 | inside the temp dir every event is a file creation or a run |
| Pipeline.StagesOrder | core/core.go:248-281 | without dry run the binaries run are a prefix of clang, opt, clang |
| Pipeline.StagesSuccess | core/core.go:248-294 | on success without dry run exactly the three chained commands ran (ChainedRuns) |
| Pipeline.StagesDryRun | core/core.go:248-292 | in a dry run at most original clang runs, and on success it did |
| Pipeline.StagesFirstFailure | core/core.go:248-281 | the first failure stops the stages: nothing after a source-name failure, at most one run after an emit failure, at most two after an opt failure |
| Pipeline.AfterOptFailure | core/core.go:273-281 | a build failure leaves at most the build run |
| Pipeline.AfterEmitFailure | core/core.go:263-281 | an opt failure leaves at most the opt run |
| Pipeline.StrippedArgsRemovesOneFlag | core/core.go:218-221 | only the first `--conjunct-dry-run` is stripped, and without one the vector is unchanged |
| Pipeline.RunConjunctPassthrough | core/core.go:225-232 | without `-c`: no temp dir, only original clang with the stripped vector; a non-zero exit exits with that code, an empty path panics |
| Pipeline.RunConjunctTempDirFailure | core/core.go:234-238 | a failed temp-dir creation returns that error with no event |
| Pipeline.RunConjunctTempDirLifecycle | core/core.go:234-243 | the temp dir is made first and once; it is removed as the very last event exactly when it is not retained, on success, failure or panic alike |
| Pipeline.RunConjunctStageOrder | core/core.go:248-281 | without dry run the binaries run are a prefix of clang, opt, clang |
| Pipeline.RunConjunctSuccess | core/core.go:208-295 | a successful compilation step without dry run ran exactly the three chained commands in its temp dir |
| Pipeline.RunConjunctDryRun | core/core.go:282-292 | in a dry run at most original clang with the stripped vector runs, and on success exactly that |
| Pipeline.RunConjunctFirstFailure | core/core.go:248-281 | the first failing stage ends the compilation step (StoppedAtFailure) |
| Runner.Host.MkdirTemp | core/core.go:235-238 | the oracle's directory, recorded in the trace when it was made |
| Runner.Host.Create | core/core.go:27-30 | the oracle's answer, recorded in the trace when the file was created |
| Runner.Host.ExpandPath | core/core.go:31-34 | the oracle's answer, and no effect |
| Runner.Host.Exec | core/core.go:63-68 | the oracle's result, with the run recorded in the trace |
| Runner.Host.RemoveAll | core/core.go:241-243 | the removal recorded in the trace |
| Runner.EmitBitcode | core/core.go:18-79 | returns EmitStage's result and extends the trace by exactly its events |
| Runner.OptCommand | core/core.go:104-114 | the loop over the map yields some key order, and the command line for that order |
| Runner.SchedulePasses | core/core.go:82-134 | returns OptStage's result for the key order used and extends the trace by exactly its events |
| Runner.BuildBitcode | core/core.go:145-190 | returns BuildStage's result and extends the trace by exactly its events |
| Runner.RunOriginalClang | core/core.go:298-317 | returns the result of the function of the same name and extends the trace by its events |
| Runner.DryRunClang | core/core.go:282-292 | returns DryRunTail's outcome and extends the trace by its events |
| Runner.AfterOptimizing | core/core.go:273-292 | returns AfterOpt's outcome and extends the trace by its events |
| Runner.AfterEmitting | core/core.go:263-292 | returns AfterEmit's outcome and extends the trace by its events |
| Runner.RunStages | core/core.go:248-294 | returns Stages' outcome and extends the trace by its events |
| Runner.RunConjunct | core/core.go:208-295 | returns Pipeline.RunConjunct's outcome and extends the trace by exactly its events, the deferred removal included |

## Left out

- `util.ExpandPath`, `os.MkdirTemp`, `os.Create`, `os.RemoveAll` and `exec.Command(...).CombinedOutput()` are process and file-system I/O. They are the fields of `Oracle` and the methods of `Runner.Host`. The output of commands and the file handles are not modelled.
- The oracle answers the same question the same way: running the same command twice is assumed to end the same way. With one temp dir per call and distinct file names, no command of one run repeats another.
- Go's `regexp` engine and `MustCompile`: `RemoveRegexArg` takes the match test as a parameter. For the one expression the core uses, `-fsanitize=[a-z,]+`, the test is written out as `Core.SanitizerFlag`.
- `filepath.Join` is modelled without its final `Clean`, and `Base`/`Ext` with Unix separators only.
- Go map iteration order is a parameter (`order`) and is not fixed. The order-independent facts are stated over the multiset `Rendered`.
- Logging, and the printing of clang's output in RunOriginalClang, are not modelled. The wording of the error messages is not modelled either; errors are named by the stage and cause they wrap.
- config/config.go is not part of this model. That covers YAML reading, probing binaries with `--version`, and the `Seed` and other configuration fields that the core never reads.
- main.go's `init` and `main` are not part of this model: environment variables, log files, `$PATH` lookup, `os.Exit` and the panic on RunConjunct's error. Neither are its calls that do not match core/core.go's signatures.
- `os.Exit` inside RunConjunct's passthrough is the outcome `Exit(code)`. Go panics are the outcomes `Panic(kind)` and `Panicked(kind)`. Go's stack unwinding itself is not modelled; only the deferred `os.RemoveAll`, which placement in the trace represents.
- `Runner.Host.ExpandPath`, `Runner.Host.Create`: do not model the file contents or the `realpath`/`bash` child processes of util.ExpandPath.
