/** core/core.go as the program runs it: each stage is a method that asks a Host for
    every effect, one after the other, and each is proved to do exactly what the
    function of the same stage in Pipeline describes, result and effects alike. */
module Runner {
  import opened Wrappers
  import FilePath
  import ArgsParser
  import Core
  import opened Pipeline

  /** The operating system as the core uses it. The answers come from a fixed oracle;
      `trace` records every effect in the order it happens. */
  class Host {
    const oracle: Oracle
    var trace: seq<Event>

    constructor (oracle: Oracle)
      ensures this.oracle == oracle && trace == []
    {
      this.oracle := oracle;
      trace := [];
    }

    /** os.MkdirTemp: a fresh directory, or None when it cannot be made. */
    method MkdirTemp() returns (dir: Option<string>)
      modifies this
      ensures dir == oracle.mkdirTemp
      ensures trace == old(trace) + (if dir.Some? then [MadeTempDir(dir.value)] else [])
    {
      dir := oracle.mkdirTemp;
      if dir.Some? {
        trace := trace + [MadeTempDir(dir.value)];
      }
    }

    /** os.Create: whether the file could be created at `path`. */
    method Create(path: string) returns (ok: bool)
      modifies this
      ensures ok == oracle.createFile(path)
      ensures trace == old(trace) + (if ok then [CreatedFile(path)] else [])
    {
      ok := oracle.createFile(path);
      if ok {
        trace := trace + [CreatedFile(path)];
      }
    }

    /** util.ExpandPath on a file that must exist; it has no effect. */
    method ExpandPath(path: string) returns (r: Option<string>)
      ensures r == oracle.expandPath(path)
    {
      r := oracle.expandPath(path);
    }

    /** exec.Command(binary, args...).CombinedOutput(); the output is not modelled. */
    method Exec(binary: string, args: seq<string>) returns (res: ProcResult)
      modifies this
      ensures res == oracle.run(binary, args)
      ensures trace == old(trace) + [Ran(binary, args)]
    {
      res := oracle.run(binary, args);
      trace := trace + [Ran(binary, args)];
    }

    /** os.RemoveAll on the temp dir. */
    method RemoveAll(dir: string)
      modifies this
      ensures trace == old(trace) + [RemovedTempDir(dir)]
    {
      trace := trace + [RemovedTempDir(dir)];
    }
  }

  /** emitBitcode. */
  method EmitBitcode(h: Host, objectName: string, clangPath: string, originalArgs: seq<string>,
                     tempDir: string, isDryRun: bool) returns (r: StageResult)
    modifies h
    ensures var spec := EmitStage(h.oracle, objectName, clangPath, originalArgs, tempDir, isDryRun);
      r == spec.value && h.trace == old(h.trace) + spec.events
  {
    ghost var spec := EmitStage(h.oracle, objectName, clangPath, originalArgs, tempDir, isDryRun);
    var name := FilePath.Join(tempDir, Core.BitcodeName(objectName));
    var created := h.Create(name);
    if !created {
      assert spec == Traced(Failed(CreateFailed(name)), []);
      return Failed(CreateFailed(name));
    }
    var expanded := h.ExpandPath(name);
    if expanded.None? {
      assert spec == Traced(Failed(ExpandFailed(name)), [CreatedFile(name)]);
      return Failed(ExpandFailed(name));
    }
    var bitcodeFilepath := expanded.value;
    if !Core.EmitArgsSafe(originalArgs) {
      assert spec == Traced(Panicked(SliceOutOfRange), [CreatedFile(name)]);
      return Panicked(SliceOutOfRange);
    }
    var args := Core.EmitArgs(originalArgs, bitcodeFilepath);
    if isDryRun {
      assert spec == Traced(Done(bitcodeFilepath), [CreatedFile(name)]);
      return Done(bitcodeFilepath);
    }
    var res := h.Exec(clangPath, args);
    AppendPair(old(h.trace), CreatedFile(name), Ran(clangPath, args));
    r := if Succeeded(res) then Done(bitcodeFilepath) else Failed(ProcessFailed(res));
    assert spec == Traced(r, [CreatedFile(name), Ran(clangPath, args)]);
  }

  /** A trace extended by one event and then another. */
  lemma AppendPair<T>(t: seq<T>, a: T, b: T)
    ensures t + [a] + [b] == t + [a, b]
  {
  }

  /** The command line schedulePasses builds: the fixed part, then one `k=v` per entry
      of `extra`, in the order the loop happens to visit the keys, returned as `order`. */
  method OptCommand(passes: seq<string>, inputFilepath: string, outputFilepath: string,
                    extra: map<string, string>) returns (cmdArgs: seq<string>, ghost order: seq<string>)
    ensures Core.IsKeyOrder(order, extra)
    ensures cmdArgs == Core.OptCommandLine(passes, inputFilepath, outputFilepath, extra, order)
  {
    var head := [Core.PassesFlag(passes), inputFilepath, "-o", outputFilepath];
    cmdArgs := head;
    order := [];
    var rest := extra.Keys;
    while rest != {}
      invariant rest <= extra.Keys
      invariant forall i, j :: 0 <= i < j < |order| ==> order[i] != order[j]
      invariant forall k :: k in order ==> k in extra && k !in rest
      invariant forall k :: k in extra ==> k in order || k in rest
      invariant cmdArgs == head + Core.RenderExtra(order, extra)
      decreases |rest|
    {
      var k :| k in rest;
      Core.RenderExtraSnoc(order, k, extra);
      AppendAssoc(head, Core.RenderExtra(order, extra), [Core.ExtraArg(k, extra[k])]);
      cmdArgs := cmdArgs + [Core.ExtraArg(k, extra[k])];
      order := order + [k];
      rest := rest - {k};
    }
  }

  /** schedulePasses; `order` is the visiting order of OptExtraArgs whenever the loop
      ran, and any key order otherwise. */
  method SchedulePasses(h: Host, cfg: Config, inputFilepath: string, tempDir: string, isDryRun: bool)
    returns (r: StageResult, ghost order: seq<string>)
    modifies h
    ensures Core.IsKeyOrder(order, cfg.optExtraArgs)
    ensures var spec := OptStage(h.oracle, cfg, inputFilepath, tempDir, isDryRun, order);
      r == spec.value && h.trace == old(h.trace) + spec.events
  {
    Core.KeyOrderExists(cfg.optExtraArgs);
    order :| Core.IsKeyOrder(order, cfg.optExtraArgs);
    ghost var spec := OptStage(h.oracle, cfg, inputFilepath, tempDir, isDryRun, order);
    var name := FilePath.Join(tempDir, Core.OptOutputName(inputFilepath));
    var created := h.Create(name);
    if !created {
      assert spec == Traced(Failed(CreateFailed(name)), []);
      return Failed(CreateFailed(name)), order;
    }
    var expanded := h.ExpandPath(name);
    if expanded.None? {
      assert spec == Traced(Failed(ExpandFailed(name)), [CreatedFile(name)]);
      return Failed(ExpandFailed(name)), order;
    }
    var outputFilepath := expanded.value;
    var cmdArgs;
    cmdArgs, order := OptCommand(cfg.passes, inputFilepath, outputFilepath, cfg.optExtraArgs);
    spec := OptStage(h.oracle, cfg, inputFilepath, tempDir, isDryRun, order);
    if isDryRun {
      assert spec == Traced(Done(outputFilepath), [CreatedFile(name)]);
      return Done(outputFilepath), order;
    }
    var res := h.Exec(cfg.optPath, cmdArgs);
    AppendPair(old(h.trace), CreatedFile(name), Ran(cfg.optPath, cmdArgs));
    r := if Succeeded(res) then Done(outputFilepath) else Failed(ProcessFailed(res));
    assert spec == Traced(r, [CreatedFile(name), Ran(cfg.optPath, cmdArgs)]);
  }

  /** buildBitcode. */
  method BuildBitcode(h: Host, clangPath: string, bitcodeFilepath: string, originalArgs: seq<string>,
                      isDryRun: bool) returns (r: StageResult)
    modifies h
    ensures var spec := BuildStage(h.oracle, clangPath, bitcodeFilepath, originalArgs, isDryRun);
      r == spec.value && h.trace == old(h.trace) + spec.events
  {
    if !Core.BuildArgsSafe(originalArgs) {
      return Panicked(SliceOutOfRange);
    }
    var args := Core.BuildArgs(originalArgs, bitcodeFilepath);
    var outFilepath := ArgsParser.ScanGetArgVal(args, "-o");
    if outFilepath == "" {
      return Failed(MissingOutput);
    }
    if isDryRun {
      return Done(outFilepath);
    }
    var res := h.Exec(clangPath, args);
    if !Succeeded(res) {
      return Failed(ProcessFailed(res));
    }
    return Done(outFilepath);
  }

  /** RunOriginalClang. */
  method RunOriginalClang(h: Host, clangPath: string, args: seq<string>) returns (r: ClangResult)
    modifies h
    ensures var spec := Pipeline.RunOriginalClang(h.oracle, clangPath, args);
      r == spec.value && h.trace == old(h.trace) + spec.events
  {
    if clangPath == "" {
      return ClangPanicked;
    }
    var res := h.Exec(clangPath, args);
    if res.Exited? && res.code != 0 {
      return Returned(Some(res.code));
    }
    return Returned(None);
  }

  /** The dry-run tail: original clang once more, whose ExitError fails the run. */
  method DryRunClang(h: Host, clangPath: string, args: seq<string>) returns (outcome: Outcome)
    modifies h
    ensures var spec := DryRunTail(h.oracle, clangPath, args);
      outcome == spec.value && h.trace == old(h.trace) + spec.events
  {
    var c := RunOriginalClang(h, clangPath, args);
    outcome := match c
      case ClangPanicked => Panic(EmptyClangPath)
      case Returned(None) => Success
      case Returned(Some(code)) => Failure(DryRunClangFailed(code));
  }

  /** RunConjunct from buildBitcode on. */
  method AfterOptimizing(h: Host, cfg: Config, args: seq<string>, optFilepath: string, dryRun: bool)
    returns (outcome: Outcome)
    modifies h
    ensures var spec := AfterOpt(h.oracle, cfg, args, optFilepath, dryRun);
      outcome == spec.value && h.trace == old(h.trace) + spec.events
  {
    ghost var t0 := h.trace;
    var built := BuildBitcode(h, cfg.clangPath, optFilepath, args, dryRun);
    ghost var b := BuildStage(h.oracle, cfg.clangPath, optFilepath, args, dryRun);
    if !built.Done? {
      return StageStop(built, e => BuildFailed(e));
    } else if !dryRun {
      return Success;
    }
    outcome := DryRunClang(h, cfg.clangPath, args);
    ghost var t := DryRunTail(h.oracle, cfg.clangPath, args);
    assert h.trace == t0 + b.events + t.events;
  }

  /** RunConjunct from schedulePasses on. */
  method AfterEmitting(h: Host, cfg: Config, args: seq<string>, tempDir: string, bitcodeFilepath: string,
                       dryRun: bool) returns (outcome: Outcome, ghost order: seq<string>)
    modifies h
    ensures Core.IsKeyOrder(order, cfg.optExtraArgs)
    ensures var spec := AfterEmit(h.oracle, cfg, args, tempDir, bitcodeFilepath, dryRun, order);
      outcome == spec.value && h.trace == old(h.trace) + spec.events
  {
    ghost var t0 := h.trace;
    var optimized;
    optimized, order := SchedulePasses(h, cfg, bitcodeFilepath, tempDir, dryRun);
    ghost var p := OptStage(h.oracle, cfg, bitcodeFilepath, tempDir, dryRun, order);
    if !optimized.Done? {
      outcome := StageStop(optimized, e => OptFailed(e));
      assert AfterEmit(h.oracle, cfg, args, tempDir, bitcodeFilepath, dryRun, order) == Traced(outcome, p.events);
      return;
    }
    outcome := AfterOptimizing(h, cfg, args, optimized.path, dryRun);
    ghost var rest := AfterOpt(h.oracle, cfg, args, optimized.path, dryRun);
    assert h.trace == t0 + p.events + rest.events;
    AppendAssoc(t0, p.events, rest.events);
    assert AfterEmit(h.oracle, cfg, args, tempDir, bitcodeFilepath, dryRun, order) == Traced(rest.value, p.events + rest.events);
  }

  /** Appending three traces, grouped either way. */
  lemma AppendAssoc<T>(a: seq<T>, b: seq<T>, c: seq<T>)
    ensures a + b + c == a + (b + c)
  {
  }

  /** What RunConjunct does inside the temp dir, up to its final return. */
  method RunStages(h: Host, cfg: Config, args: seq<string>, tempDir: string, dryRun: bool)
    returns (outcome: Outcome, ghost order: seq<string>)
    modifies h
    ensures Core.IsKeyOrder(order, cfg.optExtraArgs)
    ensures var spec := Stages(h.oracle, cfg, args, tempDir, dryRun, order);
      outcome == spec.value && h.trace == old(h.trace) + spec.events
  {
    Core.KeyOrderExists(cfg.optExtraArgs);
    order :| Core.IsKeyOrder(order, cfg.optExtraArgs);
    var src := ArgsParser.ScanSourceFileName(args);
    if src.err.Some? {
      assert Stages(h.oracle, cfg, args, tempDir, dryRun, order) == Traced(Failure(SourceNameFailed(src.err.value)), []);
      return Failure(SourceNameFailed(src.err.value)), order;
    }
    ghost var t0 := h.trace;
    var bitcode := EmitBitcode(h, src.name, cfg.clangPath, args, tempDir, dryRun);
    ghost var e := EmitStage(h.oracle, src.name, cfg.clangPath, args, tempDir, dryRun);
    if !bitcode.Done? {
      outcome := StageStop(bitcode, e => EmitFailed(e));
      assert Stages(h.oracle, cfg, args, tempDir, dryRun, order) == Traced(outcome, e.events);
      return;
    }
    outcome, order := AfterEmitting(h, cfg, args, tempDir, bitcode.path, dryRun);
    ghost var rest := AfterEmit(h.oracle, cfg, args, tempDir, bitcode.path, dryRun, order);
    assert h.trace == t0 + e.events + rest.events;
    AppendAssoc(t0, e.events, rest.events);
    assert Stages(h.oracle, cfg, args, tempDir, dryRun, order) == Traced(rest.value, e.events + rest.events);
  }

  /** RunConjunct. When no stage command line was built, `order` is any key order; the
      result does not depend on it then. */
  method RunConjunct(h: Host, cfg: Config, args: seq<string>) returns (outcome: Outcome, ghost order: seq<string>)
    modifies h
    ensures Core.IsKeyOrder(order, cfg.optExtraArgs)
    ensures var spec := Pipeline.RunConjunct(h.oracle, cfg, args, order);
      outcome == spec.value && h.trace == old(h.trace) + spec.events
  {
    Core.KeyOrderExists(cfg.optExtraArgs);
    order :| Core.IsKeyOrder(order, cfg.optExtraArgs);
    var dryRun := ArgsParser.ScanHasArg(args, Core.DryRunFlag);
    var args' := ArgsParser.RemoveArg(args, Core.DryRunFlag, false);
    var compiling := ArgsParser.ScanHasArg(args', "-c");
    if !compiling {
      var c := RunOriginalClang(h, cfg.clangPath, args');
      outcome := match c
        case ClangPanicked => Panic(EmptyClangPath)
        case Returned(None) => Success
        case Returned(Some(code)) => Exit(code);
      return;
    }
    var tempDir := h.MkdirTemp();
    if tempDir.None? {
      return Failure(TempDirFailed), order;
    }
    ghost var t0 := h.trace;
    outcome, order := RunStages(h, cfg, args', tempDir.value, dryRun);
    ghost var body := Stages(h.oracle, cfg, args', tempDir.value, dryRun, order);
    ghost var t1 := h.trace;
    if !cfg.retainTempDir {
      h.RemoveAll(tempDir.value);
    }
    ghost var cleanup := if cfg.retainTempDir then [] else [RemovedTempDir(tempDir.value)];
    assert h.trace == t1 + cleanup;
    AppendAssoc(old(h.trace), [MadeTempDir(tempDir.value)], body.events);
    AppendAssoc(old(h.trace), [MadeTempDir(tempDir.value)] + body.events, cleanup);
    assert Pipeline.RunConjunct(h.oracle, cfg, args, order)
      == Traced(body.value, [MadeTempDir(tempDir.value)] + body.events + cleanup);
  }
}
