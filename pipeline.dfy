/** core/core.go, the orchestration as functions: what each stage does with the outcomes
    an oracle supplies for file creation, path expansion and process runs, and the trace
    of effects it leaves. The methods of Runner are proved to follow these functions. */
module Pipeline {
  import opened Wrappers
  import FilePath
  import ArgsParser
  import Core

  /** How a process run ends: an exit status (0 is success; anything else is the Go
      `*exec.ExitError` with that ExitCode, -1 for a signal), or an error that is no
      ExitError, such as a binary that cannot be started. */
  datatype ProcResult = Exited(code: int) | LaunchFailed

  predicate Succeeded(r: ProcResult)
  {
    r == Exited(0)
  }

  /** What the outside world answers: the directory os.MkdirTemp creates (None when it
      fails), whether os.Create succeeds on a path, what util.ExpandPath makes of a path
      (None when it fails), and how a command ends. */
  datatype Oracle = Oracle(
    mkdirTemp: Option<string>,
    createFile: string -> bool,
    expandPath: string -> Option<string>,
    run: (string, seq<string>) -> ProcResult)

  /** The effects RunConjunct has on the world, in the order they happen. */
  datatype Event =
    | MadeTempDir(dir: string)
    | CreatedFile(path: string)
    | Ran(binary: string, args: seq<string>)
    | RemovedTempDir(dir: string)

  /** The two Go panics on these paths: the out-of-range slice in RemoveArg and the
      explicit panic on an empty clang path. */
  datatype PanicKind = SliceOutOfRange | EmptyClangPath

  datatype StageError =
    | CreateFailed(path: string)
    | ExpandFailed(path: string)
    | ProcessFailed(result: ProcResult)
    | MissingOutput

  /** A stage returns a path, returns an error, or panics. */
  datatype StageResult = Done(path: string) | Failed(err: StageError) | Panicked(panic: PanicKind)

  datatype Traced<T> = Traced(value: T, events: seq<Event>)

  /** The fields of ConjunctConfig that RunConjunct reads. */
  datatype Config = Config(
    clangPath: string,
    optPath: string,
    passes: seq<string>,
    optExtraArgs: map<string, string>,
    retainTempDir: bool)

  /** The events a stage may leave: files it creates and commands it runs. */
  predicate IsStageEvent(e: Event)
  {
    e.CreatedFile? || e.Ran?
  }

  /** The commands a trace runs, as (binary, arguments), in order. */
  function Runs(events: seq<Event>): (r: seq<(string, seq<string>)>)
    ensures |r| <= |events|
  {
    if events == [] then []
    else
      var init := Runs(events[..|events| - 1]);
      var e := events[|events| - 1];
      if e.Ran? then init + [(e.binary, e.args)] else init
  }

  /** The binaries of a list of commands. */
  function Binaries(runs: seq<(string, seq<string>)>): (r: seq<string>)
    ensures |r| == |runs|
    ensures forall j :: 0 <= j < |runs| ==> r[j] == runs[j].0
  {
    seq(|runs|, j requires 0 <= j < |runs| => runs[j].0)
  }

  lemma {:induction false} RunsConcat(a: seq<Event>, b: seq<Event>)
    ensures Runs(a + b) == Runs(a) + Runs(b)
    decreases |b|
  {
    if b == [] {
      assert a + b == a;
    } else {
      var init := b[..|b| - 1];
      assert (a + b)[..|a + b| - 1] == a + init;
      RunsConcat(a, init);
    }
  }

  /** Temp-dir and file events are no command runs. */
  lemma RunsOfNonRun(e: Event)
    requires !e.Ran?
    ensures Runs([e]) == []
  {
    assert [e][..0] == [];
  }

  // ---------------------------------------------------------------------------
  // The stages

  /** emitBitcode: create `<tempDir>/<objectName>.bc`, expand its path, derive the
      vector (which panics when `-o` is the last element), then run clang on it unless
      this is a dry run. */
  function EmitStage(o: Oracle, objectName: string, clangPath: string, args: seq<string>,
                     tempDir: string, dryRun: bool): (r: Traced<StageResult>)
    ensures var name := FilePath.Join(tempDir, Core.BitcodeName(objectName));
      && (r.events == [] <==> !o.createFile(name))
      && (r.events != [] ==> r.events[0] == CreatedFile(name))
      && (r.value.Done? ==> o.expandPath(name) == Some(r.value.path))
      && (r.value.Panicked? <==> o.createFile(name) && o.expandPath(name).Some? && !Core.EmitArgsSafe(args))
      && (dryRun ==> r.events == [] || r.events == [CreatedFile(name)])
      && (!dryRun && r.value.Done? ==>
            && Core.EmitArgsSafe(args)
            && r.events == [CreatedFile(name), Ran(clangPath, Core.EmitArgs(args, r.value.path))]
            && Succeeded(o.run(clangPath, Core.EmitArgs(args, r.value.path))))
  {
    var name := FilePath.Join(tempDir, Core.BitcodeName(objectName));
    if !o.createFile(name) then Traced(Failed(CreateFailed(name)), [])
    else
      match o.expandPath(name)
      case None => Traced(Failed(ExpandFailed(name)), [CreatedFile(name)])
      case Some(bitcodeFilepath) =>
        if !Core.EmitArgsSafe(args) then Traced(Panicked(SliceOutOfRange), [CreatedFile(name)])
        else if dryRun then Traced(Done(bitcodeFilepath), [CreatedFile(name)])
        else
          var cmd := Core.EmitArgs(args, bitcodeFilepath);
          var res := o.run(clangPath, cmd);
          Traced(if Succeeded(res) then Done(bitcodeFilepath) else Failed(ProcessFailed(res)),
                 [CreatedFile(name), Ran(clangPath, cmd)])
  }

  /** schedulePasses: create `<tempDir>/<base>.opt.bc`, expand its path, then run opt
      unless this is a dry run; `order` is the iteration order of OptExtraArgs. */
  function OptStage(o: Oracle, cfg: Config, inputFilepath: string, tempDir: string,
                    dryRun: bool, order: seq<string>): (r: Traced<StageResult>)
    requires Core.IsKeyOrder(order, cfg.optExtraArgs)
    ensures var name := FilePath.Join(tempDir, Core.OptOutputName(inputFilepath));
      && !r.value.Panicked?
      && (r.events == [] <==> !o.createFile(name))
      && (r.events != [] ==> r.events[0] == CreatedFile(name))
      && (r.value.Done? ==> o.expandPath(name) == Some(r.value.path))
      && (dryRun ==> r.events == [] || r.events == [CreatedFile(name)])
      && (!dryRun && r.value.Done? ==>
            var cmd := Core.OptCommandLine(cfg.passes, inputFilepath, r.value.path, cfg.optExtraArgs, order);
            r.events == [CreatedFile(name), Ran(cfg.optPath, cmd)] && Succeeded(o.run(cfg.optPath, cmd)))
  {
    var name := FilePath.Join(tempDir, Core.OptOutputName(inputFilepath));
    if !o.createFile(name) then Traced(Failed(CreateFailed(name)), [])
    else
      match o.expandPath(name)
      case None => Traced(Failed(ExpandFailed(name)), [CreatedFile(name)])
      case Some(outputFilepath) =>
        if dryRun then Traced(Done(outputFilepath), [CreatedFile(name)])
        else
          var cmd := Core.OptCommandLine(cfg.passes, inputFilepath, outputFilepath, cfg.optExtraArgs, order);
          var res := o.run(cfg.optPath, cmd);
          Traced(if Succeeded(res) then Done(outputFilepath) else Failed(ProcessFailed(res)),
                 [CreatedFile(name), Ran(cfg.optPath, cmd)])
  }

  /** buildBitcode: derive the vector (which panics when `-x` is the last element), fail
      with "missing -o argument" when it has no `-o` value, then run clang unless this is
      a dry run; the result is the `-o` value. */
  function BuildStage(o: Oracle, clangPath: string, bitcodeFilepath: string, args: seq<string>,
                      dryRun: bool): (r: Traced<StageResult>)
    ensures r.value.Panicked? <==> !Core.BuildArgsSafe(args)
    ensures Core.BuildArgsSafe(args) && Core.BuildOutput(args, bitcodeFilepath) == "" ==>
      r == Traced(Failed(MissingOutput), [])
    ensures dryRun ==> r.events == []
    ensures r.value.Done? ==> Core.BuildArgsSafe(args) && r.value.path == Core.BuildOutput(args, bitcodeFilepath) != ""
    ensures !dryRun && r.value.Done? ==>
      r.events == [Ran(clangPath, Core.BuildArgs(args, bitcodeFilepath))]
      && Succeeded(o.run(clangPath, Core.BuildArgs(args, bitcodeFilepath)))
  {
    if !Core.BuildArgsSafe(args) then Traced(Panicked(SliceOutOfRange), [])
    else
      var cmd := Core.BuildArgs(args, bitcodeFilepath);
      var outFilepath := Core.BuildOutput(args, bitcodeFilepath);
      if outFilepath == "" then Traced(Failed(MissingOutput), [])
      else if dryRun then Traced(Done(outFilepath), [])
      else
        var res := o.run(clangPath, cmd);
        Traced(if Succeeded(res) then Done(outFilepath) else Failed(ProcessFailed(res)), [Ran(clangPath, cmd)])
  }

  /** What RunOriginalClang returns: the exit code of an ExitError, or None for Go's
      `(nil, 0)`; or it panics. */
  datatype ClangResult = Returned(exitError: Option<int>) | ClangPanicked

  /** RunOriginalClang: panic on an empty path; otherwise one run, whose ExitError becomes
      `(err, code)` and whose any other ending becomes `(nil, 0)`. */
  function RunOriginalClang(o: Oracle, clangPath: string, args: seq<string>): (r: Traced<ClangResult>)
    ensures clangPath == "" <==> r.value == ClangPanicked
    ensures clangPath == "" ==> r.events == []
    ensures clangPath != "" ==> r.events == [Ran(clangPath, args)]
    ensures r.value.Returned? ==>
      (r.value.exitError.Some? <==> o.run(clangPath, args).Exited? && o.run(clangPath, args).code != 0)
    ensures r.value.Returned? && r.value.exitError.Some? ==> r.value.exitError.value == o.run(clangPath, args).code
  {
    if clangPath == "" then Traced(ClangPanicked, [])
    else
      var res := o.run(clangPath, args);
      Traced(Returned(if res.Exited? && res.code != 0 then Some(res.code) else None), [Ran(clangPath, args)])
  }

  // ---------------------------------------------------------------------------
  // RunConjunct

  datatype PipelineError =
    | TempDirFailed
    | SourceNameFailed(err: ArgsParser.SourceError)
    | EmitFailed(stage: StageError)
    | OptFailed(stage: StageError)
    | BuildFailed(stage: StageError)
    | DryRunClangFailed(code: int)

  /** How RunConjunct ends: it returns nil or an error, exits the process, or panics. */
  datatype Outcome = Success | Failure(err: PipelineError) | Exit(code: int) | Panic(panic: PanicKind)

  /** A stage that did not return a path ends RunConjunct. */
  function StageStop(r: StageResult, wrap: StageError -> PipelineError): Outcome
    requires !r.Done?
  {
    match r
    case Failed(err) => Failure(wrap(err))
    case Panicked(p) => Panic(p)
  }

  /** The dry-run tail: original clang once, with the stripped arguments. */
  function DryRunTail(o: Oracle, clangPath: string, args: seq<string>): (r: Traced<Outcome>)
    ensures r.events == RunOriginalClang(o, clangPath, args).events
    ensures r.value == Success <==> RunOriginalClang(o, clangPath, args).value == Returned(None)
  {
    var c := RunOriginalClang(o, clangPath, args);
    match c.value
    case ClangPanicked => Traced(Panic(EmptyClangPath), c.events)
    case Returned(None) => Traced(Success, c.events)
    case Returned(Some(code)) => Traced(Failure(DryRunClangFailed(code)), c.events)
  }

  /** Build, then the dry-run tail. */
  function AfterOpt(o: Oracle, cfg: Config, args: seq<string>, optFilepath: string, dryRun: bool): Traced<Outcome>
  {
    var b := BuildStage(o, cfg.clangPath, optFilepath, args, dryRun);
    if !b.value.Done? then Traced(StageStop(b.value, e => BuildFailed(e)), b.events)
    else if !dryRun then Traced(Success, b.events)
    else
      var t := DryRunTail(o, cfg.clangPath, args);
      Traced(t.value, b.events + t.events)
  }

  /** Opt, then the rest. */
  function AfterEmit(o: Oracle, cfg: Config, args: seq<string>, tempDir: string, bitcodeFilepath: string,
                     dryRun: bool, order: seq<string>): Traced<Outcome>
    requires Core.IsKeyOrder(order, cfg.optExtraArgs)
  {
    var p := OptStage(o, cfg, bitcodeFilepath, tempDir, dryRun, order);
    if !p.value.Done? then Traced(StageStop(p.value, e => OptFailed(e)), p.events)
    else
      var rest := AfterOpt(o, cfg, args, p.value.path, dryRun);
      Traced(rest.value, p.events + rest.events)
  }

  /** Inside the temp dir: the source name, then emit, opt and build, stopping at the
      first failure. */
  function Stages(o: Oracle, cfg: Config, args: seq<string>, tempDir: string, dryRun: bool,
                  order: seq<string>): Traced<Outcome>
    requires Core.IsKeyOrder(order, cfg.optExtraArgs)
  {
    var src := ArgsParser.GetSourceFileName(args);
    if src.err.Some? then Traced(Failure(SourceNameFailed(src.err.value)), [])
    else
      var e := EmitStage(o, src.name, cfg.clangPath, args, tempDir, dryRun);
      if !e.value.Done? then Traced(StageStop(e.value, e => EmitFailed(e)), e.events)
      else
        var rest := AfterEmit(o, cfg, args, tempDir, e.value.path, dryRun, order);
        Traced(rest.value, e.events + rest.events)
  }

  /** Not a compilation step: only original clang, and an ExitError exits the process
      with its code. */
  function Passthrough(o: Oracle, clangPath: string, args: seq<string>): (r: Traced<Outcome>)
    ensures r.events == RunOriginalClang(o, clangPath, args).events
  {
    var c := RunOriginalClang(o, clangPath, args);
    match c.value
    case ClangPanicked => Traced(Panic(EmptyClangPath), c.events)
    case Returned(None) => Traced(Success, c.events)
    case Returned(Some(code)) => Traced(Exit(code), c.events)
  }

  /** The arguments every stage sees: the first `--conjunct-dry-run` removed. */
  function StrippedArgs(args: seq<string>): seq<string>
  {
    ArgsParser.RemoveArg(args, Core.DryRunFlag, false)
  }

  /** RunConjunct: detect and strip the dry-run flag; without `-c` pass through to clang;
      otherwise make the temp dir, run the stages in it, and remove it afterwards (Go's
      deferred os.RemoveAll, which also runs while a panic unwinds) unless it is retained. */
  function RunConjunct(o: Oracle, cfg: Config, args: seq<string>, order: seq<string>): Traced<Outcome>
    requires Core.IsKeyOrder(order, cfg.optExtraArgs)
  {
    var dryRun := ArgsParser.HasArg(args, Core.DryRunFlag);
    var args := StrippedArgs(args);
    if !ArgsParser.HasArg(args, "-c") then Passthrough(o, cfg.clangPath, args)
    else
      match o.mkdirTemp
      case None => Traced(Failure(TempDirFailed), [])
      case Some(tempDir) =>
        var body := Stages(o, cfg, args, tempDir, dryRun, order);
        var cleanup := if cfg.retainTempDir then [] else [RemovedTempDir(tempDir)];
        Traced(body.value, [MadeTempDir(tempDir)] + body.events + cleanup)
  }

  // ---------------------------------------------------------------------------
  // What runs, stage by stage

  /** All events of a trace are stage events. */
  predicate StageEvents(events: seq<Event>)
  {
    forall j :: 0 <= j < |events| ==> IsStageEvent(events[j])
  }

  /** A stage trace that only created its file runs nothing. */
  lemma CreatedOnly(name: string)
    ensures StageEvents([CreatedFile(name)])
    ensures Runs([CreatedFile(name)]) == [] && Binaries(Runs([CreatedFile(name)])) == []
  {
    RunsOfNonRun(CreatedFile(name));
  }

  /** A stage trace that created its file and then ran one command runs exactly that. */
  lemma CreatedThenRan(name: string, binary: string, cmd: seq<string>)
    ensures StageEvents([CreatedFile(name), Ran(binary, cmd)])
    ensures Runs([CreatedFile(name), Ran(binary, cmd)]) == [(binary, cmd)]
    ensures Binaries(Runs([CreatedFile(name), Ran(binary, cmd)])) == [binary]
  {
    RunsOfNonRun(CreatedFile(name));
    RunsConcat([CreatedFile(name)], [Ran(binary, cmd)]);
    assert [CreatedFile(name), Ran(binary, cmd)] == [CreatedFile(name)] + [Ran(binary, cmd)];
    assert Binaries([(binary, cmd)]) == [binary];
  }

  lemma EmitStageRuns(o: Oracle, objectName: string, clangPath: string, args: seq<string>,
                      tempDir: string, dryRun: bool)
    ensures var r := EmitStage(o, objectName, clangPath, args, tempDir, dryRun);
      && StageEvents(r.events)
      && Binaries(Runs(r.events)) <= (if dryRun then [] else [clangPath])
      && (!dryRun && r.value.Done? ==> Runs(r.events) == [(clangPath, Core.EmitArgs(args, r.value.path))])
  {
    var r := EmitStage(o, objectName, clangPath, args, tempDir, dryRun);
    var name := FilePath.Join(tempDir, Core.BitcodeName(objectName));
    CreatedOnly(name);
    if o.createFile(name) && o.expandPath(name).Some? && Core.EmitArgsSafe(args) && !dryRun {
      var cmd := Core.EmitArgs(args, o.expandPath(name).value);
      CreatedThenRan(name, clangPath, cmd);
      assert r.events == [CreatedFile(name), Ran(clangPath, cmd)];
    } else {
      assert r.events == [] || r.events == [CreatedFile(name)];
    }
  }

  lemma OptStageRuns(o: Oracle, cfg: Config, inputFilepath: string, tempDir: string,
                     dryRun: bool, order: seq<string>)
    requires Core.IsKeyOrder(order, cfg.optExtraArgs)
    ensures var r := OptStage(o, cfg, inputFilepath, tempDir, dryRun, order);
      && StageEvents(r.events)
      && Binaries(Runs(r.events)) <= (if dryRun then [] else [cfg.optPath])
      && (dryRun ==> Runs(r.events) == [])
      && (!dryRun && r.value.Done? ==>
            Runs(r.events) == [(cfg.optPath, Core.OptCommandLine(cfg.passes, inputFilepath, r.value.path, cfg.optExtraArgs, order))])
  {
    var r := OptStage(o, cfg, inputFilepath, tempDir, dryRun, order);
    var name := FilePath.Join(tempDir, Core.OptOutputName(inputFilepath));
    CreatedOnly(name);
    if o.createFile(name) && o.expandPath(name).Some? && !dryRun {
      var cmd := Core.OptCommandLine(cfg.passes, inputFilepath, o.expandPath(name).value, cfg.optExtraArgs, order);
      CreatedThenRan(name, cfg.optPath, cmd);
      assert r.events == [CreatedFile(name), Ran(cfg.optPath, cmd)];
    } else {
      assert r.events == [] || r.events == [CreatedFile(name)];
    }
  }

  lemma BuildStageRuns(o: Oracle, clangPath: string, bitcodeFilepath: string, args: seq<string>, dryRun: bool)
    ensures var r := BuildStage(o, clangPath, bitcodeFilepath, args, dryRun);
      && StageEvents(r.events)
      && Binaries(Runs(r.events)) <= (if dryRun then [] else [clangPath])
      && (!dryRun && r.value.Done? ==> Runs(r.events) == [(clangPath, Core.BuildArgs(args, bitcodeFilepath))])
  {
    var r := BuildStage(o, clangPath, bitcodeFilepath, args, dryRun);
    if r.events != [] {
      assert [r.events[0]][..0] == [];
    }
  }

  lemma DryRunTailRuns(o: Oracle, clangPath: string, args: seq<string>)
    ensures var r := DryRunTail(o, clangPath, args);
      && StageEvents(r.events)
      && Runs(r.events) <= [(clangPath, args)]
      && (r.value == Success ==> Runs(r.events) == [(clangPath, args)])
  {
    var r := DryRunTail(o, clangPath, args);
    if r.events != [] {
      assert [r.events[0]][..0] == [];
    }
  }

  /** Build and the dry-run tail: without dry run at most the build's clang run; with it
      at most the original clang run, which on success did happen. */
  lemma AfterOptRuns(o: Oracle, cfg: Config, args: seq<string>, optFilepath: string, dryRun: bool)
    ensures var r := AfterOpt(o, cfg, args, optFilepath, dryRun);
      && StageEvents(r.events)
      && (!dryRun ==> Binaries(Runs(r.events)) <= [cfg.clangPath])
      && (!dryRun && r.value == Success ==>
            Core.BuildArgsSafe(args) && Runs(r.events) == [(cfg.clangPath, Core.BuildArgs(args, optFilepath))])
      && (dryRun ==> Runs(r.events) <= [(cfg.clangPath, args)])
      && (dryRun && r.value == Success ==> Runs(r.events) == [(cfg.clangPath, args)])
  {
    var b := BuildStage(o, cfg.clangPath, optFilepath, args, dryRun);
    BuildStageRuns(o, cfg.clangPath, optFilepath, args, dryRun);
    if b.value.Done? && dryRun {
      var t := DryRunTail(o, cfg.clangPath, args);
      DryRunTailRuns(o, cfg.clangPath, args);
      RunsConcat(b.events, t.events);
    }
  }

  lemma BinariesConcat(a: seq<(string, seq<string>)>, b: seq<(string, seq<string>)>)
    ensures Binaries(a + b) == Binaries(a) + Binaries(b)
  {
  }


  /** A trace that ran exactly `a`, followed by one whose binaries are a prefix of `ys`,
      runs a prefix of `a` then `ys`. */
  lemma OrderThen(x: seq<Event>, y: seq<Event>, a: string, cmd: seq<string>, ys: seq<string>)
    requires Runs(x) == [(a, cmd)] && Binaries(Runs(y)) <= ys
    ensures Binaries(Runs(x + y)) <= [a] + ys
  {
    RunsConcat(x, y);
    BinariesConcat(Runs(x), Runs(y));
    assert Binaries([(a, cmd)]) == [a];
  }

  lemma StageEventsConcat(a: seq<Event>, b: seq<Event>)
    requires StageEvents(a) && StageEvents(b)
    ensures StageEvents(a + b)
  {
    forall j | 0 <= j < |a + b|
      ensures IsStageEvent((a + b)[j])
    {
      if j >= |a| {
        assert (a + b)[j] == b[j - |a|];
      }
    }
  }

  /** A stage with stage events, then, only when it returned a path, a continuation with
      stage events. */
  lemma StageThenEvents(p: Traced<StageResult>, rest: seq<Event>, events: seq<Event>)
    requires StageEvents(p.events)
    requires p.value.Done? ==> StageEvents(rest) && events == p.events + rest
    requires !p.value.Done? ==> events == p.events
    ensures StageEvents(events)
  {
    if p.value.Done? {
      StageEventsConcat(p.events, rest);
    }
  }

  /** A stage that ran nothing, then, only when it returned a path, a continuation. */
  lemma QuietThen(p: Traced<StageResult>, rest: seq<Event>, events: seq<Event>)
    requires Runs(p.events) == []
    requires p.value.Done? ==> events == p.events + rest
    requires !p.value.Done? ==> events == p.events
    ensures Runs(events) == (if p.value.Done? then Runs(rest) else [])
  {
    if p.value.Done? {
      RunsConcat(p.events, rest);
    }
  }

  /** A stage that ran `a`, then a continuation that ran `b`. */
  lemma ThenRanOne(events: seq<Event>, x: seq<Event>, y: seq<Event>, a: (string, seq<string>), b: (string, seq<string>))
    requires events == x + y && Runs(x) == [a] && Runs(y) == [b]
    ensures Runs(events) == [a, b]
  {
    RunsConcat(x, y);
  }

  /** A stage that ran `a`, then a continuation that ran `b` and `c`. */
  lemma ThenRanTwo(events: seq<Event>, x: seq<Event>, y: seq<Event>,
                   a: (string, seq<string>), b: (string, seq<string>), c: (string, seq<string>))
    requires events == x + y && Runs(x) == [a] && Runs(y) == [b, c]
    ensures Runs(events) == [a, b, c]
  {
    RunsConcat(x, y);
  }

  /** Opt onwards leaves only stage events. */
  lemma AfterEmitEvents(o: Oracle, cfg: Config, args: seq<string>, tempDir: string, bitcodeFilepath: string,
                        dryRun: bool, order: seq<string>)
    requires Core.IsKeyOrder(order, cfg.optExtraArgs)
    ensures StageEvents(AfterEmit(o, cfg, args, tempDir, bitcodeFilepath, dryRun, order).events)
  {
    var p := OptStage(o, cfg, bitcodeFilepath, tempDir, dryRun, order);
    OptStageRuns(o, cfg, bitcodeFilepath, tempDir, dryRun, order);
    var path := if p.value.Done? then p.value.path else "";
    var rest := AfterOpt(o, cfg, args, path, dryRun);
    AfterOptRuns(o, cfg, args, path, dryRun);
    StageThenEvents(p, rest.events, AfterEmit(o, cfg, args, tempDir, bitcodeFilepath, dryRun, order).events);
  }

  /** A stage that ran at most `a` (and exactly `a` with `cmd` when it returned a path),
      then, only when it did, a continuation running a prefix of `ys`. */
  lemma StageThenOrder(p: Traced<StageResult>, rest: seq<Event>, events: seq<Event>,
                       a: string, cmd: seq<string>, ys: seq<string>, bins: seq<string>)
    requires bins == [a] + ys
    requires Binaries(Runs(p.events)) <= [a]
    requires p.value.Done? ==> Runs(p.events) == [(a, cmd)] && Binaries(Runs(rest)) <= ys && events == p.events + rest
    requires !p.value.Done? ==> events == p.events
    ensures Binaries(Runs(events)) <= bins
  {
    if p.value.Done? {
      OrderThen(p.events, rest, a, cmd, ys);
    }
  }

  /** Two and three binaries, written as one followed by the rest. */
  lemma ConsTwo<T>(a: T, b: T)
    ensures [a, b] == [a] + [b]
  {
  }

  lemma ConsThree<T>(a: T, b: T, c: T)
    ensures [a, b, c] == [a] + [b, c]
  {
  }

  /** Opt onwards without dry run: opt, then clang, each only after the one before. */
  lemma AfterEmitOrder(o: Oracle, cfg: Config, args: seq<string>, tempDir: string, bitcodeFilepath: string,
                       order: seq<string>)
    requires Core.IsKeyOrder(order, cfg.optExtraArgs)
    ensures Binaries(Runs(AfterEmit(o, cfg, args, tempDir, bitcodeFilepath, false, order).events)) <= [cfg.optPath, cfg.clangPath]
  {
    var p := OptStage(o, cfg, bitcodeFilepath, tempDir, false, order);
    OptStageRuns(o, cfg, bitcodeFilepath, tempDir, false, order);
    var path := if p.value.Done? then p.value.path else "";
    var rest := AfterOpt(o, cfg, args, path, false);
    AfterOptRuns(o, cfg, args, path, false);
    ConsTwo(cfg.optPath, cfg.clangPath);
    StageThenOrder(p, rest.events, AfterEmit(o, cfg, args, tempDir, bitcodeFilepath, false, order).events,
                   cfg.optPath, Core.OptCommandLine(cfg.passes, bitcodeFilepath, path, cfg.optExtraArgs, order),
                   [cfg.clangPath], [cfg.optPath, cfg.clangPath]);
  }

  /** Opt onwards without dry run, on success: opt on the emitted bitcode, then clang on
      opt's output. */
  lemma AfterEmitSuccess(o: Oracle, cfg: Config, args: seq<string>, tempDir: string, bitcodeFilepath: string,
                         order: seq<string>)
    requires Core.IsKeyOrder(order, cfg.optExtraArgs)
    requires AfterEmit(o, cfg, args, tempDir, bitcodeFilepath, false, order).value == Success
    ensures var out := o.expandPath(FilePath.Join(tempDir, Core.OptOutputName(bitcodeFilepath)));
      && out.Some?
      && Core.BuildArgsSafe(args)
      && Runs(AfterEmit(o, cfg, args, tempDir, bitcodeFilepath, false, order).events)
         == [(cfg.optPath, Core.OptCommandLine(cfg.passes, bitcodeFilepath, out.value, cfg.optExtraArgs, order)),
             (cfg.clangPath, Core.BuildArgs(args, out.value))]
  {
    var p := OptStage(o, cfg, bitcodeFilepath, tempDir, false, order);
    OptStageRuns(o, cfg, bitcodeFilepath, tempDir, false, order);
    assert p.value.Done?;
    var rest := AfterOpt(o, cfg, args, p.value.path, false);
    AfterOptRuns(o, cfg, args, p.value.path, false);
    ThenRanOne(AfterEmit(o, cfg, args, tempDir, bitcodeFilepath, false, order).events, p.events, rest.events,
               (cfg.optPath, Core.OptCommandLine(cfg.passes, bitcodeFilepath, p.value.path, cfg.optExtraArgs, order)),
               (cfg.clangPath, Core.BuildArgs(args, p.value.path)));
  }

  /** Opt onwards in a dry run: at most original clang, which on success did run. */
  lemma AfterEmitDryRun(o: Oracle, cfg: Config, args: seq<string>, tempDir: string, bitcodeFilepath: string,
                        order: seq<string>)
    requires Core.IsKeyOrder(order, cfg.optExtraArgs)
    ensures var r := AfterEmit(o, cfg, args, tempDir, bitcodeFilepath, true, order);
      && Runs(r.events) <= [(cfg.clangPath, args)]
      && (r.value == Success ==> Runs(r.events) == [(cfg.clangPath, args)])
  {
    var p := OptStage(o, cfg, bitcodeFilepath, tempDir, true, order);
    OptStageRuns(o, cfg, bitcodeFilepath, tempDir, true, order);
    var path := if p.value.Done? then p.value.path else "";
    var rest := AfterOpt(o, cfg, args, path, true);
    AfterOptRuns(o, cfg, args, path, true);
    QuietThen(p, rest.events, AfterEmit(o, cfg, args, tempDir, bitcodeFilepath, true, order).events);
  }

  lemma StagesEvents(o: Oracle, cfg: Config, args: seq<string>, tempDir: string, dryRun: bool, order: seq<string>)
    requires Core.IsKeyOrder(order, cfg.optExtraArgs)
    ensures StageEvents(Stages(o, cfg, args, tempDir, dryRun, order).events)
  {
    var src := ArgsParser.GetSourceFileName(args);
    if src.err.None? {
      var e := EmitStage(o, src.name, cfg.clangPath, args, tempDir, dryRun);
      EmitStageRuns(o, src.name, cfg.clangPath, args, tempDir, dryRun);
      if e.value.Done? {
        AfterEmitEvents(o, cfg, args, tempDir, e.value.path, dryRun, order);
      }
    }
  }

  /** Without dry run the stages run clang, opt and clang, each only once the one before
      has succeeded. */
  lemma StagesOrder(o: Oracle, cfg: Config, args: seq<string>, tempDir: string, order: seq<string>)
    requires Core.IsKeyOrder(order, cfg.optExtraArgs)
    ensures Binaries(Runs(Stages(o, cfg, args, tempDir, false, order).events)) <= [cfg.clangPath, cfg.optPath, cfg.clangPath]
  {
    var src := ArgsParser.GetSourceFileName(args);
    if src.err.None? {
      var e := EmitStage(o, src.name, cfg.clangPath, args, tempDir, false);
      EmitStageRuns(o, src.name, cfg.clangPath, args, tempDir, false);
      var path := if e.value.Done? then e.value.path else "";
      var rest := AfterEmit(o, cfg, args, tempDir, path, false, order);
      AfterEmitOrder(o, cfg, args, tempDir, path, order);
      ConsThree(cfg.clangPath, cfg.optPath, cfg.clangPath);
      StageThenOrder(e, rest.events, Stages(o, cfg, args, tempDir, false, order).events,
                     cfg.clangPath, if e.value.Done? then Core.EmitArgs(args, path) else [],
                     [cfg.optPath, cfg.clangPath], [cfg.clangPath, cfg.optPath, cfg.clangPath]);
    }
  }

  /** The commands of a successful run without dry run, for the stage arguments `args`
      and the temp dir `dir`: clang emitting `<dir>/<source>.bc`, opt turning the expanded
      path of that into `<dir>/<base>.opt.bc`, and clang compiling the expanded path of
      that. */
  predicate ChainedRuns(o: Oracle, cfg: Config, args: seq<string>, dir: string, order: seq<string>,
                        runs: seq<(string, seq<string>)>)
    requires Core.IsKeyOrder(order, cfg.optExtraArgs)
  {
    var src := ArgsParser.GetSourceFileName(args);
    var bc := o.expandPath(FilePath.Join(dir, Core.BitcodeName(src.name)));
    && src.err.None?
    && bc.Some?
    && Core.EmitArgsSafe(args)
    && Core.BuildArgsSafe(args)
    && var out := o.expandPath(FilePath.Join(dir, Core.OptOutputName(bc.value)));
    && out.Some?
    && runs == [(cfg.clangPath, Core.EmitArgs(args, bc.value)),
                (cfg.optPath, Core.OptCommandLine(cfg.passes, bc.value, out.value, cfg.optExtraArgs, order)),
                (cfg.clangPath, Core.BuildArgs(args, out.value))]
  }

  /** Without dry run, on success: clang emits the bitcode, opt reads exactly that file,
      and clang compiles exactly opt's output. */
  lemma StagesSuccess(o: Oracle, cfg: Config, args: seq<string>, tempDir: string, order: seq<string>)
    requires Core.IsKeyOrder(order, cfg.optExtraArgs)
    requires Stages(o, cfg, args, tempDir, false, order).value == Success
    ensures ChainedRuns(o, cfg, args, tempDir, order, Runs(Stages(o, cfg, args, tempDir, false, order).events))
  {
    var src := ArgsParser.GetSourceFileName(args);
    assert src.err.None?;
    var e := EmitStage(o, src.name, cfg.clangPath, args, tempDir, false);
    EmitStageRuns(o, src.name, cfg.clangPath, args, tempDir, false);
    assert e.value.Done?;
    var rest := AfterEmit(o, cfg, args, tempDir, e.value.path, false, order);
    AfterEmitSuccess(o, cfg, args, tempDir, e.value.path, order);
    var out := o.expandPath(FilePath.Join(tempDir, Core.OptOutputName(e.value.path))).value;
    ThenRanTwo(Stages(o, cfg, args, tempDir, false, order).events, e.events, rest.events,
               (cfg.clangPath, Core.EmitArgs(args, e.value.path)),
               (cfg.optPath, Core.OptCommandLine(cfg.passes, e.value.path, out, cfg.optExtraArgs, order)),
               (cfg.clangPath, Core.BuildArgs(args, out)));
  }

  /** In a dry run no stage command runs: at most original clang with the stage
      arguments, and on success it did. */
  lemma StagesDryRun(o: Oracle, cfg: Config, args: seq<string>, tempDir: string, order: seq<string>)
    requires Core.IsKeyOrder(order, cfg.optExtraArgs)
    ensures var r := Stages(o, cfg, args, tempDir, true, order);
      && Runs(r.events) <= [(cfg.clangPath, args)]
      && (r.value == Success ==> Runs(r.events) == [(cfg.clangPath, args)])
  {
    var src := ArgsParser.GetSourceFileName(args);
    if src.err.None? {
      var e := EmitStage(o, src.name, cfg.clangPath, args, tempDir, true);
      EmitStageRuns(o, src.name, cfg.clangPath, args, tempDir, true);
      if e.value.Done? {
        var rest := AfterEmit(o, cfg, args, tempDir, e.value.path, true, order);
        AfterEmitDryRun(o, cfg, args, tempDir, e.value.path, order);
        RunsConcat(e.events, rest.events);
        assert Runs(e.events) == [];
      }
    }
  }

  /** How far a failed run can have got: nothing after a source-name failure, at most
      emit's command after an emit failure, at most emit's and opt's after an opt failure. */
  predicate StoppedAtFailure(value: Outcome, runs: seq<(string, seq<string>)>)
  {
    && (value.Failure? && value.err.SourceNameFailed? ==> runs == [])
    && (value.Failure? && value.err.EmitFailed? ==> |runs| <= 1)
    && (value.Failure? && value.err.OptFailed? ==> |runs| <= 2)
  }

  /** The first failure ends the stages. */
  lemma StagesFirstFailure(o: Oracle, cfg: Config, args: seq<string>, tempDir: string, dryRun: bool, order: seq<string>)
    requires Core.IsKeyOrder(order, cfg.optExtraArgs)
    ensures var r := Stages(o, cfg, args, tempDir, dryRun, order);
      && (r.value.Failure? && r.value.err.SourceNameFailed? ==> r.events == [])
      && StoppedAtFailure(r.value, Runs(r.events))
  {
    var src := ArgsParser.GetSourceFileName(args);
    if src.err.None? {
      var e := EmitStage(o, src.name, cfg.clangPath, args, tempDir, dryRun);
      EmitStageRuns(o, src.name, cfg.clangPath, args, tempDir, dryRun);
      if e.value.Done? {
        var rest := AfterEmit(o, cfg, args, tempDir, e.value.path, dryRun, order);
        assert Stages(o, cfg, args, tempDir, dryRun, order) == Traced(rest.value, e.events + rest.events);
        RunsConcat(e.events, rest.events);
        AfterEmitFailure(o, cfg, args, tempDir, e.value.path, dryRun, order);
      }
    }
  }

  lemma AfterOptFailure(o: Oracle, cfg: Config, args: seq<string>, optFilepath: string, dryRun: bool)
    ensures var r := AfterOpt(o, cfg, args, optFilepath, dryRun);
      !(r.value.Failure? && (r.value.err.SourceNameFailed? || r.value.err.EmitFailed? || r.value.err.OptFailed?))
  {
  }

  lemma AfterEmitFailure(o: Oracle, cfg: Config, args: seq<string>, tempDir: string, bitcodeFilepath: string,
                         dryRun: bool, order: seq<string>)
    requires Core.IsKeyOrder(order, cfg.optExtraArgs)
    ensures var r := AfterEmit(o, cfg, args, tempDir, bitcodeFilepath, dryRun, order);
      && !(r.value.Failure? && (r.value.err.SourceNameFailed? || r.value.err.EmitFailed?))
      && (r.value.Failure? && r.value.err.OptFailed? ==> |Runs(r.events)| <= 1)
  {
    var p := OptStage(o, cfg, bitcodeFilepath, tempDir, dryRun, order);
    OptStageRuns(o, cfg, bitcodeFilepath, tempDir, dryRun, order);
    if p.value.Done? {
      AfterOptFailure(o, cfg, args, p.value.path, dryRun);
    } else {
      assert AfterEmit(o, cfg, args, tempDir, bitcodeFilepath, dryRun, order).events == p.events;
      assert |Runs(p.events)| == |Binaries(Runs(p.events))| <= 1;
    }
  }

  // ---------------------------------------------------------------------------
  // RunConjunct as a whole

  /** Only the first `--conjunct-dry-run` is stripped; without one nothing changes. */
  lemma StrippedArgsRemovesOneFlag(args: seq<string>)
    ensures multiset(StrippedArgs(args)) == multiset(args) - multiset{Core.DryRunFlag}
    ensures Core.DryRunFlag !in args ==> StrippedArgs(args) == args
  {
    ArgsParser.RemoveArgMultiset(args, Core.DryRunFlag);
  }

  /** The temp-dir events around the stages run nothing. */
  lemma RunsInTempDir(dir: string, body: seq<Event>, retain: bool)
    ensures Runs([MadeTempDir(dir)] + body + (if retain then [] else [RemovedTempDir(dir)])) == Runs(body)
  {
    RunsOfNonRun(MadeTempDir(dir));
    RunsConcat([MadeTempDir(dir)], body);
    if !retain {
      RunsOfNonRun(RemovedTempDir(dir));
      RunsConcat([MadeTempDir(dir)] + body, [RemovedTempDir(dir)]);
    } else {
      assert [MadeTempDir(dir)] + body + [] == [MadeTempDir(dir)] + body;
    }
  }

  /** Not a compilation step: no temp dir, only original clang with the stripped
      arguments; an ExitError exits with its code, anything else returns nil. */
  lemma RunConjunctPassthrough(o: Oracle, cfg: Config, args: seq<string>, order: seq<string>)
    requires Core.IsKeyOrder(order, cfg.optExtraArgs)
    requires !ArgsParser.HasArg(StrippedArgs(args), "-c")
    ensures var r := RunConjunct(o, cfg, args, order); var s := StrippedArgs(args); var res := o.run(cfg.clangPath, s);
      && r.events == (if cfg.clangPath == "" then [] else [Ran(cfg.clangPath, s)])
      && r.value == (if cfg.clangPath == "" then Panic(EmptyClangPath)
                     else if res.Exited? && res.code != 0 then Exit(res.code)
                     else Success)
  {
  }

  /** When the temp dir cannot be made, RunConjunct returns that error and does nothing. */
  lemma RunConjunctTempDirFailure(o: Oracle, cfg: Config, args: seq<string>, order: seq<string>)
    requires Core.IsKeyOrder(order, cfg.optExtraArgs)
    requires ArgsParser.HasArg(StrippedArgs(args), "-c") && o.mkdirTemp.None?
    ensures RunConjunct(o, cfg, args, order) == Traced(Failure(TempDirFailed), [])
  {
  }

  /** The shape of a trace wrapped in the temp-dir events. */
  predicate TempDirTrace(events: seq<Event>, dir: string, retain: bool)
  {
    var n := |events|;
    && n >= 1
    && events[0] == MadeTempDir(dir)
    && (!retain ==> n >= 2 && events[n - 1] == RemovedTempDir(dir))
    && (forall j :: 0 < j < n && (retain || j < n - 1) ==> IsStageEvent(events[j]))
    && (RemovedTempDir(dir) in events <==> !retain)
  }

  lemma WrappedTrace(dir: string, body: seq<Event>, retain: bool)
    requires StageEvents(body)
    ensures TempDirTrace([MadeTempDir(dir)] + body + (if retain then [] else [RemovedTempDir(dir)]), dir, retain)
  {
    var events := [MadeTempDir(dir)] + body + (if retain then [] else [RemovedTempDir(dir)]);
    assert forall j :: 0 < j <= |body| ==> events[j] == body[j - 1];
  }

  /** A compilation step makes the temp dir first and once; it is removed as the very
      last event exactly when it is not retained, whether the stages succeed, fail or
      panic; every event between is a file creation or a command run. */
  lemma RunConjunctTempDirLifecycle(o: Oracle, cfg: Config, args: seq<string>, order: seq<string>)
    requires Core.IsKeyOrder(order, cfg.optExtraArgs)
    requires ArgsParser.HasArg(StrippedArgs(args), "-c") && o.mkdirTemp.Some?
    ensures TempDirTrace(RunConjunct(o, cfg, args, order).events, o.mkdirTemp.value, cfg.retainTempDir)
  {
    var s := StrippedArgs(args);
    var dryRun := ArgsParser.HasArg(args, Core.DryRunFlag);
    var dir := o.mkdirTemp.value;
    var body := Stages(o, cfg, s, dir, dryRun, order);
    StagesEvents(o, cfg, s, dir, dryRun, order);
    WrappedTrace(dir, body.events, cfg.retainTempDir);
  }

  /** Without `--conjunct-dry-run`, a compilation step runs clang, opt and clang, each
      only once the one before has succeeded. */
  lemma RunConjunctStageOrder(o: Oracle, cfg: Config, args: seq<string>, order: seq<string>)
    requires Core.IsKeyOrder(order, cfg.optExtraArgs)
    requires ArgsParser.HasArg(StrippedArgs(args), "-c") && Core.DryRunFlag !in args
    ensures Binaries(Runs(RunConjunct(o, cfg, args, order).events)) <= [cfg.clangPath, cfg.optPath, cfg.clangPath]
  {
    var s := StrippedArgs(args);
    if o.mkdirTemp.Some? {
      var dir := o.mkdirTemp.value;
      var body := Stages(o, cfg, s, dir, false, order);
      StagesOrder(o, cfg, s, dir, order);
      RunsInTempDir(dir, body.events, cfg.retainTempDir);
    }
  }

  /** Without `--conjunct-dry-run`, a successful compilation step ran exactly the three
      chained commands (ChainedRuns) in its temp dir. */
  lemma RunConjunctSuccess(o: Oracle, cfg: Config, args: seq<string>, order: seq<string>)
    requires Core.IsKeyOrder(order, cfg.optExtraArgs)
    requires ArgsParser.HasArg(StrippedArgs(args), "-c") && Core.DryRunFlag !in args
    requires RunConjunct(o, cfg, args, order).value == Success
    ensures o.mkdirTemp.Some?
    ensures ChainedRuns(o, cfg, StrippedArgs(args), o.mkdirTemp.value, order, Runs(RunConjunct(o, cfg, args, order).events))
  {
    var s := StrippedArgs(args);
    var dir := o.mkdirTemp.value;
    var body := Stages(o, cfg, s, dir, false, order);
    StagesSuccess(o, cfg, s, dir, order);
    RunsInTempDir(dir, body.events, cfg.retainTempDir);
  }

  /** With `--conjunct-dry-run`, no stage command runs; only original clang with the
      stripped arguments may run, and a successful dry run did run it. */
  lemma RunConjunctDryRun(o: Oracle, cfg: Config, args: seq<string>, order: seq<string>)
    requires Core.IsKeyOrder(order, cfg.optExtraArgs)
    requires ArgsParser.HasArg(StrippedArgs(args), "-c") && Core.DryRunFlag in args
    ensures var r := RunConjunct(o, cfg, args, order);
      && Runs(r.events) <= [(cfg.clangPath, StrippedArgs(args))]
      && (r.value == Success ==> Runs(r.events) == [(cfg.clangPath, StrippedArgs(args))])
  {
    var s := StrippedArgs(args);
    if o.mkdirTemp.Some? {
      var dir := o.mkdirTemp.value;
      var body := Stages(o, cfg, s, dir, true, order);
      StagesDryRun(o, cfg, s, dir, order);
      RunsInTempDir(dir, body.events, cfg.retainTempDir);
    }
  }

  /** The first failing stage ends a compilation step (StoppedAtFailure). */
  lemma RunConjunctFirstFailure(o: Oracle, cfg: Config, args: seq<string>, order: seq<string>)
    requires Core.IsKeyOrder(order, cfg.optExtraArgs)
    requires ArgsParser.HasArg(StrippedArgs(args), "-c") && o.mkdirTemp.Some?
    ensures var r := RunConjunct(o, cfg, args, order); StoppedAtFailure(r.value, Runs(r.events))
  {
    var s := StrippedArgs(args);
    var dryRun := ArgsParser.HasArg(args, Core.DryRunFlag);
    var dir := o.mkdirTemp.value;
    var body := Stages(o, cfg, s, dir, dryRun, order);
    StagesFirstFailure(o, cfg, s, dir, dryRun, order);
    RunsInTempDir(dir, body.events, cfg.retainTempDir);
  }
}
