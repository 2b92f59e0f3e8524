/** core/core.go, pure part: the argument vectors each stage derives from the (dry-run
    stripped) invocation, and the three-stage pipeline with its workspace and dry-run
    rules as functions from an oracle of outcomes to an outcome and a trace of events.
    Runner holds the imperative methods proved to follow these functions. */
module Core {
  import opened Wrappers
  import Text
  import FilePath
  import Util
  import ArgsParser

  const DryRunFlag: string := "--conjunct-dry-run"
  const NoUnusedArgumentWarning: string := "-Wno-unused-command-line-argument"
  const SanitizerRegex: string := "-fsanitize=[a-z,]+"

  // ---------------------------------------------------------------------------
  // The sanitizer pattern

  const SanitizerPrefix: string := "-fsanitize="

  predicate IsSanitizerChar(c: char)
  {
    ('a' <= c <= 'z') || c == ','
  }

  /** "-fsanitize=" followed by a character of [a-z,] starts at index i of s. */
  predicate SanitizerAt(s: string, i: nat)
  {
    i + |SanitizerPrefix| < |s| && s[i..i + |SanitizerPrefix|] == SanitizerPrefix && IsSanitizerChar(s[i + |SanitizerPrefix|])
  }

  /** Unanchored MatchString for `-fsanitize=[a-z,]+`: since the class is repeated one or
      more times, a match anywhere needs the prefix and one class character after it. */
  predicate SanitizerFlag(s: string)
  {
    exists i: nat :: i < |s| && SanitizerAt(s, i)
  }

  /** Every sanitizer match contains '='. */
  lemma SanitizerFlagHasEquals(s: string)
    requires SanitizerFlag(s)
    ensures '=' in s
  {
    var i: nat :| i < |s| && SanitizerAt(s, i);
    assert s[i..i + |SanitizerPrefix|][10] == '=';
  }

  // ---------------------------------------------------------------------------
  // emitBitcode's vector

  /** The removals of emitBitcode that come before the `-o` one. */
  function EmitStrip(args: seq<string>): seq<string>
  {
    var args := ArgsParser.RemoveArg(args, "-g", false);
    var args := ArgsParser.RemoveArg(args, "-gmodules", false);
    var args := ArgsParser.RemoveArg(args, "-fembed-bitcode", false);
    var args := ArgsParser.RemoveArg(args, "-fembed-bitcode", false);
    ArgsParser.RemoveArg(args, "-fembed-bitcode-marker", false)
  }

  /** Taking away A and then B is taking away A + B. */
  lemma MinusMinus<T>(m: multiset<T>, a: multiset<T>, b: multiset<T>)
    ensures (m - a) - b == m - (a + b)
  {
    forall x | true
      ensures ((m - a) - b)[x] == (m - (a + b))[x]
    {
    }
  }

  /** The five elements the first removals may take away, one copy each (two of
      `-fembed-bitcode`). */
  const EmitStripFlags: multiset<string> :=
    multiset{"-g"} + multiset{"-gmodules"} + multiset{"-fembed-bitcode"} + multiset{"-fembed-bitcode"} + multiset{"-fembed-bitcode-marker"}

  /** Five single removals in a row take away the five elements at once. */
  lemma MultisetMinusFive<T>(m0: multiset<T>, m5: multiset<T>, a: T, b: T, c: T, d: T, e: T)
    requires m5 == ((((m0 - multiset{a}) - multiset{b}) - multiset{c}) - multiset{d}) - multiset{e}
    ensures m5 == m0 - (multiset{a} + multiset{b} + multiset{c} + multiset{d} + multiset{e})
  {
    MinusMinus(m0, multiset{a}, multiset{b});
    MinusMinus(m0, multiset{a} + multiset{b}, multiset{c});
    MinusMinus(m0, multiset{a} + multiset{b} + multiset{c}, multiset{d});
    MinusMinus(m0, multiset{a} + multiset{b} + multiset{c} + multiset{d}, multiset{e});
  }

  /** The first five removals, counted: one `-g`, one `-gmodules`, up to two
      `-fembed-bitcode` and one `-fembed-bitcode-marker` go, each only if present. */
  lemma EmitStripMultiset(args: seq<string>)
    ensures multiset(EmitStrip(args)) == multiset(args) - EmitStripFlags
  {
    var a1 := ArgsParser.RemoveArg(args, "-g", false);
    ArgsParser.RemoveArgMultiset(args, "-g");
    var a2 := ArgsParser.RemoveArg(a1, "-gmodules", false);
    ArgsParser.RemoveArgMultiset(a1, "-gmodules");
    var a3 := ArgsParser.RemoveArg(a2, "-fembed-bitcode", false);
    ArgsParser.RemoveArgMultiset(a2, "-fembed-bitcode");
    var a4 := ArgsParser.RemoveArg(a3, "-fembed-bitcode", false);
    ArgsParser.RemoveArgMultiset(a3, "-fembed-bitcode");
    var a5 := ArgsParser.RemoveArg(a4, "-fembed-bitcode-marker", false);
    ArgsParser.RemoveArgMultiset(a4, "-fembed-bitcode-marker");
    assert EmitStrip(args) == a5;
    MultisetMinusFive(multiset(args), multiset(a5), "-g", "-gmodules", "-fembed-bitcode", "-fembed-bitcode", "-fembed-bitcode-marker");
  }

  /** emitBitcode does not panic in RemoveArg(args, "-o", true). */
  predicate EmitArgsSafe(args: seq<string>)
  {
    ArgsParser.RemoveArgSafe(EmitStrip(args), "-o", true)
  }

  /** What emitBitcode keeps of the original: the removals, in the source's order. */
  function EmitKept(args: seq<string>): (r: seq<string>)
    requires EmitArgsSafe(args)
    ensures forall j :: 0 <= j < |r| ==> !SanitizerFlag(r[j])
  {
    var args := ArgsParser.RemoveArg(EmitStrip(args), "-o", true);
    ArgsParser.RemoveRegexArg(args, SanitizerRegex, SanitizerFlag)
  }

  /** What the `-o` removal takes away: `-o` and the element after it, if `-o` is there. */
  function OutputPair(s: seq<string>): multiset<string>
  {
    var i := ArgsParser.IndexOf(s, "-o");
    if i + 1 < |s| then multiset{"-o", s[i + 1]} else multiset{}
  }

  lemma OutputRemovalMultiset(s: seq<string>)
    requires ArgsParser.RemoveArgSafe(s, "-o", true)
    ensures multiset(ArgsParser.RemoveArg(s, "-o", true)) == multiset(s) - OutputPair(s)
  {
    if "-o" in s {
      ArgsParser.RemoveArgWithValue(s, "-o");
    } else {
      assert multiset(s) - multiset{} == multiset(s);
    }
  }

  /** What emitBitcode keeps, counted element by element: the original count less the
      five flag removals and the `-o` pair, and nothing of any sanitizer flag. */
  lemma EmitKeptCounts(args: seq<string>, x: string)
    requires EmitArgsSafe(args)
    ensures var stripped := EmitStrip(args);
      multiset(EmitKept(args))[x]
      == if SanitizerFlag(x) then 0
         else (multiset(args) - EmitStripFlags - OutputPair(stripped))[x]
  {
    var stripped := EmitStrip(args);
    var noOutput := ArgsParser.RemoveArg(stripped, "-o", true);
    assert EmitKept(args) == ArgsParser.Keep(noOutput, SanitizerFlag);
    ArgsParser.KeepCounts(noOutput, SanitizerFlag, x);
    OutputRemovalMultiset(stripped);
    EmitStripMultiset(args);
  }

  /** The flags emitBitcode adds to what it keeps, in its order. */
  function EmitAdditions(kept: seq<string>, bitcodeFilepath: string): seq<string>
  {
    var args := ArgsParser.AddArg(kept, "-emit-llvm", "");
    var args := ArgsParser.AddArg(args, "-o", bitcodeFilepath);
    ArgsParser.AddArg(args, NoUnusedArgumentWarning, "")
  }

  /** The vector emitBitcode runs clang with, derived from a copy of `args`. */
  function EmitArgs(args: seq<string>, bitcodeFilepath: string): seq<string>
    requires EmitArgsSafe(args)
  {
    EmitAdditions(EmitKept(args), bitcodeFilepath)
  }

  /** AddArg appends: `-emit-llvm`, then `-o` with the bitcode path, then the warning flag. */
  lemma EmitAdditionsShape(kept: seq<string>, bitcodeFilepath: string)
    requires bitcodeFilepath != ""
    ensures EmitAdditions(kept, bitcodeFilepath) == kept + ["-emit-llvm", "-o", bitcodeFilepath, NoUnusedArgumentWarning]
  {
    var a3 := ArgsParser.AddArg(kept, "-emit-llvm", "");
    assert a3 == kept + ["-emit-llvm"];
    var a4 := ArgsParser.AddArg(a3, "-o", bitcodeFilepath);
    assert a4 == kept + ["-emit-llvm", "-o", bitcodeFilepath];
  }

  /** The flags emitBitcode appends are no sanitizer flags. */
  lemma AppendedFlagsAreNoSanitizerFlags()
    ensures !SanitizerFlag("-emit-llvm") && !SanitizerFlag("-o") && !SanitizerFlag(NoUnusedArgumentWarning)
  {
    if SanitizerFlag(NoUnusedArgumentWarning) {
      SanitizerFlagHasEquals(NoUnusedArgumentWarning);
    }
  }

  /** ...followed by exactly `-emit-llvm -o <bitcode> -Wno-unused-command-line-argument`. */
  lemma EmitArgsShape(args: seq<string>, bitcodeFilepath: string)
    requires EmitArgsSafe(args) && bitcodeFilepath != ""
    ensures EmitArgs(args, bitcodeFilepath) == EmitKept(args) + ["-emit-llvm", "-o", bitcodeFilepath, NoUnusedArgumentWarning]
  {
    EmitAdditionsShape(EmitKept(args), bitcodeFilepath);
  }

  /** Appending the additions to a vector free of sanitizer flags leaves it free of them. */
  lemma EmitAdditionsNoSanitizer(kept: seq<string>, bitcodeFilepath: string)
    requires bitcodeFilepath != "" && !SanitizerFlag(bitcodeFilepath)
    requires forall j :: 0 <= j < |kept| ==> !SanitizerFlag(kept[j])
    ensures var r := EmitAdditions(kept, bitcodeFilepath); forall j :: 0 <= j < |r| ==> !SanitizerFlag(r[j])
  {
    var tail := ["-emit-llvm", "-o", bitcodeFilepath, NoUnusedArgumentWarning];
    EmitAdditionsShape(kept, bitcodeFilepath);
    AppendedFlagsAreNoSanitizerFlags();
    var r := kept + tail;
    forall j | 0 <= j < |r|
      ensures !SanitizerFlag(r[j])
    {
      if j >= |kept| {
        assert r[j] == tail[j - |kept|];
      }
    }
  }

  /** With a bitcode path that is no sanitizer flag, no sanitizer flag is left at all. */
  lemma EmitArgsNoSanitizer(args: seq<string>, bitcodeFilepath: string)
    requires EmitArgsSafe(args) && bitcodeFilepath != "" && !SanitizerFlag(bitcodeFilepath)
    ensures var r := EmitArgs(args, bitcodeFilepath); forall j :: 0 <= j < |r| ==> !SanitizerFlag(r[j])
  {
    EmitAdditionsNoSanitizer(EmitKept(args), bitcodeFilepath);
  }

  /** Without any of the five flags, the first removals change nothing. */
  lemma EmitStripNoFlags(args: seq<string>)
    requires "-g" !in args && "-gmodules" !in args && "-fembed-bitcode" !in args && "-fembed-bitcode-marker" !in args
    ensures EmitStrip(args) == args
  {
  }

  /** None of the flags the stages remove or look up by name, and no sanitizer flag. */
  predicate PlainArg(a: string)
  {
    a !in ["-g", "-gmodules", "-fembed-bitcode", "-fembed-bitcode-marker", "-o", "-x", "-c"] && '=' !in a
  }

  lemma EmitStripOfPlainCompile(args: seq<string>, src: string, out: string)
    requires PlainArg(src) && PlainArg(out) && args == ["-c", src, "-o", out]
    ensures EmitStrip(args) == args
  {
    EmitStripNoFlags(args);
  }

  lemma CutSecondPair<T>(s: seq<T>, a: T, b: T, c: T, d: T)
    requires s == [a, b, c, d]
    ensures s[..2] + s[4..] == [a, b]
  {
  }

  lemma OutputRemovalOfPlainCompile(args: seq<string>, src: string, out: string)
    requires PlainArg(src) && args == ["-c", src, "-o", out]
    ensures ArgsParser.RemoveArgSafe(args, "-o", true)
    ensures ArgsParser.RemoveArg(args, "-o", true) == ["-c", src]
  {
    assert ArgsParser.IndexOf(args, "-o") == 2 by {
      assert args[2] == "-o";
      assert args[0] != "-o" && args[1] != "-o";
    }
    ArgsParser.RemoveArgAt(args, "-o", true);
    CutSecondPair(args, "-c", src, "-o", out);
  }

  lemma PlainArgsAreNoSanitizerFlags(kept: seq<string>, src: string)
    requires PlainArg(src) && kept == ["-c", src]
    ensures forall j :: 0 <= j < |kept| ==> !SanitizerFlag(kept[j])
  {
    if SanitizerFlag("-c") { SanitizerFlagHasEquals("-c"); }
    if SanitizerFlag(src) { SanitizerFlagHasEquals(src); }
  }

  lemma EmitKeptOfPlainCompile(args: seq<string>, src: string, out: string)
    requires PlainArg(src) && PlainArg(out) && args == ["-c", src, "-o", out]
    ensures EmitArgsSafe(args)
    ensures EmitKept(args) == ["-c", src]
  {
    EmitStripOfPlainCompile(args, src, out);
    OutputRemovalOfPlainCompile(args, src, out);
    var kept := ArgsParser.RemoveArg(args, "-o", true);
    PlainArgsAreNoSanitizerFlags(kept, src);
    ArgsParser.KeepNothingToRemove(kept, SanitizerFlag);
  }

  lemma EmitAdditionsOfSource(kept: seq<string>, src: string, bitcodeFilepath: string)
    requires kept == ["-c", src] && bitcodeFilepath != ""
    ensures EmitAdditions(kept, bitcodeFilepath) == ["-c", src, "-emit-llvm", "-o", bitcodeFilepath, NoUnusedArgumentWarning]
  {
    EmitAdditionsShape(kept, bitcodeFilepath);
  }

  /** A plain `-c <src> -o <out>` compile: emitBitcode keeps `-c <src>`, swaps the output
      for the bitcode file and adds its flags. */
  lemma EmitArgsOfPlainCompile(args: seq<string>, src: string, out: string, bitcodeFilepath: string)
    requires PlainArg(src) && PlainArg(out) && args == ["-c", src, "-o", out] && bitcodeFilepath != ""
    ensures EmitArgsSafe(args)
    ensures EmitArgs(args, bitcodeFilepath) == ["-c", src, "-emit-llvm", "-o", bitcodeFilepath, NoUnusedArgumentWarning]
  {
    EmitKeptOfPlainCompile(args, src, out);
    EmitAdditionsOfSource(EmitKept(args), src, bitcodeFilepath);
  }

  // ---------------------------------------------------------------------------
  // schedulePasses' command line

  /** The name of the opt output: the input's base name less its extension, then `.opt.bc`. */
  function OptOutputName(inputFilepath: string): string
  {
    Util.GetBasenameWithoutExtension(inputFilepath) + ".opt.bc"
  }

  /** The name of the emitted bitcode file. */
  function BitcodeName(objectName: string): string
  {
    objectName + ".bc"
  }

  /** For the bitcode file emitBitcode names after a source `n`, the opt output is
      `n.opt.bc`: only the `.bc` is dropped. */
  lemma OptOutputNameOfBitcode(dir: string, objectName: string)
    requires objectName != "" && '/' !in objectName
    ensures OptOutputName(dir + "/" + BitcodeName(objectName)) == objectName + ".opt.bc"
  {
    assert dir + "/" + BitcodeName(objectName) == dir + "/" + objectName + ".bc";
    Util.BasenameOfBitcodeFile(dir, objectName);
  }

  /** `-passes=` followed by the pass names joined with commas. */
  function PassesFlag(passes: seq<string>): string
  {
    "-passes=" + Text.Join(passes, ",")
  }

  /** One OptExtraArgs entry on the command line. */
  function ExtraArg(key: string, value: string): string
  {
    key + "=" + value
  }

  /** `order` lists the keys of `m`, each once: one of Go's iteration orders. */
  predicate IsKeyOrder(order: seq<string>, m: map<string, string>)
  {
    (forall i, j :: 0 <= i < j < |order| ==> order[i] != order[j])
    && (forall k :: k in order ==> k in m)
    && (forall k :: k in m ==> k in order)
  }

  /** The entries of `m` rendered in the order `order`. */
  function RenderExtra(order: seq<string>, m: map<string, string>): (r: seq<string>)
    requires forall k :: k in order ==> k in m
    ensures |r| == |order|
  {
    if order == [] then []
    else
      var k := order[|order| - 1];
      RenderExtra(order[..|order| - 1], m) + [ExtraArg(k, m[k])]
  }

  /** Visiting one more key renders one more entry at the end. */
  lemma RenderExtraSnoc(order: seq<string>, k: string, m: map<string, string>)
    requires forall x :: x in order ==> x in m
    requires k in m
    ensures RenderExtra(order + [k], m) == RenderExtra(order, m) + [ExtraArg(k, m[k])]
  {
    assert (order + [k])[..|order|] == order;
  }

  /** The command line schedulePasses gives opt, with the map entries in `order`. */
  function OptCommandLine(passes: seq<string>, inputFilepath: string, outputFilepath: string,
                          extra: map<string, string>, order: seq<string>): seq<string>
    requires IsKeyOrder(order, extra)
  {
    [PassesFlag(passes), inputFilepath, "-o", outputFilepath] + RenderExtra(order, extra)
  }

  /** The rendered entries of a map, independent of any order. */
  ghost function Rendered(m: map<string, string>): multiset<string>
    decreases |m|
  {
    if m == map[] then multiset{}
    else
      var k :| k in m;
      multiset{ExtraArg(k, m[k])} + Rendered(m - {k})
  }

  /** Rendered does not depend on which key the definition picks first. */
  lemma {:induction false} RenderedRemove(m: map<string, string>, k: string)
    requires k in m
    ensures Rendered(m) == multiset{ExtraArg(k, m[k])} + Rendered(m - {k})
    decreases |m|
  {
    var k' :| k' in m && Rendered(m) == multiset{ExtraArg(k', m[k'])} + Rendered(m - {k'});
    if k' != k {
      var m1 := m - {k'};
      var m2 := m - {k};
      assert |m1| == |m| - 1 && |m2| == |m| - 1 by {
        assert m1.Keys == m.Keys - {k'} && m2.Keys == m.Keys - {k};
      }
      assert m1 - {k} == m2 - {k'};
      calc {
        Rendered(m);
        multiset{ExtraArg(k', m[k'])} + Rendered(m1);
        { RenderedRemove(m1, k); }
        multiset{ExtraArg(k', m[k'])} + multiset{ExtraArg(k, m[k])} + Rendered(m1 - {k});
        { RenderedRemove(m2, k'); }
        multiset{ExtraArg(k, m[k])} + Rendered(m2);
      }
    }
  }

  /** Dropping the last key of a key order gives a key order of the map without it. */
  lemma KeyOrderInit(order: seq<string>, m: map<string, string>)
    requires IsKeyOrder(order, m) && order != []
    ensures var k := order[|order| - 1];
      k in m && k !in order[..|order| - 1] && IsKeyOrder(order[..|order| - 1], m - {k})
  {
    var k := order[|order| - 1];
    var init := order[..|order| - 1];
    assert k in order;
    forall x | x in m - {k}
      ensures x in init
    {
      assert x in order;
      var i :| 0 <= i < |order| && order[i] == x;
      assert init[i] == x;
    }
  }

  /** Every key order renders the same multiset of entries. */
  lemma {:induction false} RenderExtraMultiset(order: seq<string>, m: map<string, string>)
    requires IsKeyOrder(order, m)
    ensures multiset(RenderExtra(order, m)) == Rendered(m)
    decreases |order|
  {
    if order == [] {
      assert m == map[];
    } else {
      var k := order[|order| - 1];
      var init := order[..|order| - 1];
      var m' := m - {k};
      KeyOrderInit(order, m);
      RenderExtraMultiset(init, m');
      RenderExtraAgree(init, m, m');
      RenderedRemove(m, k);
    }
  }

  /** Rendering depends only on the entries of the keys rendered. */
  lemma {:induction false} RenderExtraAgree(order: seq<string>, m: map<string, string>, m': map<string, string>)
    requires forall k :: k in order ==> k in m && k in m' && m[k] == m'[k]
    ensures RenderExtra(order, m) == RenderExtra(order, m')
    decreases |order|
  {
    if order != [] {
      var init := order[..|order| - 1];
      assert forall k :: k in init ==> k in order;
      RenderExtraAgree(init, m, m');
    }
  }

  /** As many rendered entries as keys. */
  lemma {:induction false} RenderedSize(m: map<string, string>)
    ensures |Rendered(m)| == |m|
    decreases |m|
  {
    if m != map[] {
      var k :| k in m;
      RenderedRemove(m, k);
      RenderedSize(m - {k});
    }
  }

  /** schedulePasses' command line: the four fixed elements, then one `k=v` per entry
      of OptExtraArgs in some order, so `4 + |OptExtraArgs|` elements in all. */
  lemma OptCommandLineShape(passes: seq<string>, inputFilepath: string, outputFilepath: string,
                            extra: map<string, string>, order: seq<string>)
    requires IsKeyOrder(order, extra)
    ensures var r := OptCommandLine(passes, inputFilepath, outputFilepath, extra, order);
      && |r| == 4 + |extra|
      && r[..4] == [PassesFlag(passes), inputFilepath, "-o", outputFilepath]
      && multiset(r[4..]) == Rendered(extra)
  {
    var r := OptCommandLine(passes, inputFilepath, outputFilepath, extra, order);
    assert r[4..] == RenderExtra(order, extra);
    RenderExtraMultiset(order, extra);
    RenderedSize(extra);
  }

  /** A key order exists for every map. */
  lemma {:induction false} KeyOrderExists(m: map<string, string>)
    ensures exists order :: IsKeyOrder(order, m)
    decreases |m|
  {
    if m == map[] {
      assert IsKeyOrder([], m);
    } else {
      var k :| k in m;
      KeyOrderExists(m - {k});
      var order :| IsKeyOrder(order, m - {k});
      assert IsKeyOrder(order + [k], m) by {
        forall i, j | 0 <= i < j < |order + [k]|
          ensures (order + [k])[i] != (order + [k])[j]
        {
          if j == |order| {
            assert order[i] in order;
          }
        }
      }
    }
  }

  // ---------------------------------------------------------------------------
  // buildBitcode's vector

  /** buildBitcode does not panic in RemoveArg(args, "-x", true); its later `-c` removal
      never panics (BuildIrArgsSafe). */
  predicate BuildArgsSafe(args: seq<string>)
  {
    ArgsParser.RemoveArgSafe(args, "-x", true)
  }

  /** The first `-x` pair replaced by `-x ir` at the end. */
  function BuildIrArgs(args: seq<string>): (r: seq<string>)
    requires BuildArgsSafe(args)
    ensures r == ArgsParser.RemoveArg(args, "-x", true) + ["-x", "ir"]
  {
    ArgsParser.AddArg(ArgsParser.RemoveArg(args, "-x", true), "-x", "ir")
  }

  /** After `-x ir` is appended, a `-c` always has an element after it. */
  lemma BuildIrArgsSafe(args: seq<string>)
    requires BuildArgsSafe(args)
    ensures ArgsParser.RemoveArgSafe(BuildIrArgs(args), "-c", true)
  {
    var s := ArgsParser.RemoveArg(args, "-x", true);
    ArgsParser.IndexOfAppend(s, ["-x", "ir"], "-c");
  }

  /** The first `-c` pair replaced by `-c <bitcode>`, then the warning flag. */
  function BuildCompile(v: seq<string>, bitcodeFilepath: string): seq<string>
    requires ArgsParser.RemoveArgSafe(v, "-c", true)
  {
    var args := ArgsParser.RemoveArg(v, "-c", true);
    var args := ArgsParser.AddArg(args, "-c", bitcodeFilepath);
    ArgsParser.AddArg(args, NoUnusedArgumentWarning, "")
  }

  /** The vector buildBitcode runs clang with, derived from a copy of `args`. */
  function BuildArgs(args: seq<string>, bitcodeFilepath: string): seq<string>
    requires BuildArgsSafe(args)
  {
    BuildIrArgsSafe(args);
    BuildCompile(BuildIrArgs(args), bitcodeFilepath)
  }

  /** What buildBitcode returns and checks: the value of the derived vector's `-o`. */
  function BuildOutput(args: seq<string>, bitcodeFilepath: string): string
    requires BuildArgsSafe(args)
  {
    ArgsParser.GetArgVal(BuildArgs(args, bitcodeFilepath), "-o")
  }

  lemma BuildCompileShape(v: seq<string>, bitcodeFilepath: string)
    requires ArgsParser.RemoveArgSafe(v, "-c", true) && bitcodeFilepath != ""
    ensures BuildCompile(v, bitcodeFilepath) == ArgsParser.RemoveArg(v, "-c", true) + ["-c", bitcodeFilepath, NoUnusedArgumentWarning]
  {
    var a := ArgsParser.RemoveArg(v, "-c", true);
    var a1 := ArgsParser.AddArg(a, "-c", bitcodeFilepath);
    assert a1 == a + ["-c", bitcodeFilepath];
  }

  lemma AppendTwoThree<T>(a: seq<T>, x: T, y: T, c: T, d: T, e: T)
    ensures a + [x, y] + [c, d, e] == a + [x, y, c, d, e]
  {
  }

  /** `b` is `r` with two tails appended, and `r` is `a`: so `b` is `a` with both. */
  lemma ReplaceHead<T>(b: seq<T>, r: seq<T>, a: seq<T>, x: T, y: T, c: T, d: T, e: T)
    requires b == r + [x, y] + [c, d, e] && r == a
    ensures b == a + [x, y, c, d, e]
  {
    AppendTwoThree(a, x, y, c, d, e);
  }

  lemma AppendOneThree<T>(a: seq<T>, y: T, c: T, d: T, e: T)
    ensures a + [y] + [c, d, e] == a + [y, c, d, e]
  {
  }

  /** The `-x ir` vector and the compile step, for the three cases below. */
  lemma BuildArgsSteps(args: seq<string>, bitcodeFilepath: string)
    requires BuildArgsSafe(args) && bitcodeFilepath != ""
    ensures var s := ArgsParser.RemoveArg(args, "-x", true); var v := s + ["-x", "ir"];
      && ArgsParser.RemoveArgSafe(v, "-c", true)
      && BuildArgs(args, bitcodeFilepath) == ArgsParser.RemoveArg(v, "-c", true) + ["-c", bitcodeFilepath, NoUnusedArgumentWarning]
      && ("-c" !in s ==> "-c" !in v)
  {
    var s := ArgsParser.RemoveArg(args, "-x", true);
    BuildIrArgsSafe(args);
    BuildCompileShape(BuildIrArgs(args), bitcodeFilepath);
    ArgsParser.IndexOfAppend(s, ["-x", "ir"], "-c");
  }

  /** A `-c` with a value: that pair goes and `-x ir -c <bitcode> -W...` follows. */
  lemma BuildArgsWithCompileValue(args: seq<string>, bitcodeFilepath: string)
    requires BuildArgsSafe(args) && bitcodeFilepath != ""
    requires var s := ArgsParser.RemoveArg(args, "-x", true); ArgsParser.IndexOf(s, "-c") + 1 < |s|
    ensures var s := ArgsParser.RemoveArg(args, "-x", true); var i := ArgsParser.IndexOf(s, "-c");
      BuildArgs(args, bitcodeFilepath) == s[..i] + s[i + 2..] + ["-x", "ir", "-c", bitcodeFilepath, NoUnusedArgumentWarning]
  {
    var s := ArgsParser.RemoveArg(args, "-x", true);
    var i := ArgsParser.IndexOf(s, "-c");
    BuildArgsSteps(args, bitcodeFilepath);
    ArgsParser.RemoveArgOfAppend(s, ["-x", "ir"], "-c");
    ArgsParser.RemoveArgAt(s, "-c", true);
    ReplaceHead(BuildArgs(args, bitcodeFilepath), ArgsParser.RemoveArg(s, "-c", true), s[..i] + s[i + 2..],
      "-x", "ir", "-c", bitcodeFilepath, NoUnusedArgumentWarning);
  }

  /** No `-c`: all of the vector, then the same five elements. */
  lemma BuildArgsWithoutCompile(args: seq<string>, bitcodeFilepath: string)
    requires BuildArgsSafe(args) && bitcodeFilepath != ""
    requires "-c" !in ArgsParser.RemoveArg(args, "-x", true)
    ensures var s := ArgsParser.RemoveArg(args, "-x", true);
      BuildArgs(args, bitcodeFilepath) == s + ["-x", "ir", "-c", bitcodeFilepath, NoUnusedArgumentWarning]
  {
    var s := ArgsParser.RemoveArg(args, "-x", true);
    BuildArgsSteps(args, bitcodeFilepath);
    AppendTwoThree(s, "-x", "ir", "-c", bitcodeFilepath, NoUnusedArgumentWarning);
  }

  /** `-c` last: its removal takes the appended `-x` with it, leaving a stray `ir`. */
  lemma BuildArgsCompileLast(args: seq<string>, bitcodeFilepath: string)
    requires BuildArgsSafe(args) && bitcodeFilepath != ""
    requires var s := ArgsParser.RemoveArg(args, "-x", true); ArgsParser.IndexOf(s, "-c") + 1 == |s|
    ensures var s := ArgsParser.RemoveArg(args, "-x", true); var i := ArgsParser.IndexOf(s, "-c");
      BuildArgs(args, bitcodeFilepath) == s[..i] + ["ir", "-c", bitcodeFilepath, NoUnusedArgumentWarning]
  {
    var s := ArgsParser.RemoveArg(args, "-x", true);
    var i := ArgsParser.IndexOf(s, "-c");
    BuildArgsSteps(args, bitcodeFilepath);
    ArgsParser.RemoveArgLastOfAppend(s, "-x", "ir", "-c");
    AppendOneThree(s[..i], "ir", "-c", bitcodeFilepath, NoUnusedArgumentWarning);
  }

  /** buildBitcode's vector, with `s` the vector less its first `-x` pair, in all three
      cases. */
  lemma BuildArgsShape(args: seq<string>, bitcodeFilepath: string)
    requires BuildArgsSafe(args) && bitcodeFilepath != ""
    ensures var s := ArgsParser.RemoveArg(args, "-x", true); var i := ArgsParser.IndexOf(s, "-c");
      var r := BuildArgs(args, bitcodeFilepath);
      && (i + 1 < |s| ==> r == s[..i] + s[i + 2..] + ["-x", "ir", "-c", bitcodeFilepath, NoUnusedArgumentWarning])
      && (i == |s| ==> r == s + ["-x", "ir", "-c", bitcodeFilepath, NoUnusedArgumentWarning])
      && (i + 1 == |s| ==> r == s[..i] + ["ir", "-c", bitcodeFilepath, NoUnusedArgumentWarning])
  {
    var s := ArgsParser.RemoveArg(args, "-x", true);
    var i := ArgsParser.IndexOf(s, "-c");
    if i + 1 < |s| {
      BuildArgsWithCompileValue(args, bitcodeFilepath);
    } else if i == |s| {
      BuildArgsWithoutCompile(args, bitcodeFilepath);
    } else {
      BuildArgsCompileLast(args, bitcodeFilepath);
    }
  }

  lemma BuildCompileKeepsPrefix(v: seq<string>, bitcodeFilepath: string, n: nat)
    requires ArgsParser.RemoveArgSafe(v, "-c", true) && n <= |v| && "-c" !in v[..n]
    ensures var r := BuildCompile(v, bitcodeFilepath); n <= |r| && r[..n] == v[..n]
  {
    ArgsParser.RemoveArgKeepsPrefix(v, "-c", true, n);
    var c := ArgsParser.RemoveArg(v, "-c", true);
    var c1 := ArgsParser.AddArg(c, "-c", bitcodeFilepath);
    assert c1[..n] == c[..n];
  }

  /** A prefix without `-x` and `-c` is left in place by buildBitcode's derivation. */
  lemma BuildArgsKeepPrefix(args: seq<string>, bitcodeFilepath: string, n: nat)
    requires BuildArgsSafe(args) && n <= |args| && "-x" !in args[..n] && "-c" !in args[..n]
    ensures var r := BuildArgs(args, bitcodeFilepath); n <= |r| && r[..n] == args[..n]
  {
    ArgsParser.RemoveArgKeepsPrefix(args, "-x", true, n);
    var v := BuildIrArgs(args);
    assert v[..n] == args[..n];
    BuildIrArgsSafe(args);
    BuildCompileKeepsPrefix(v, bitcodeFilepath, n);
  }

  /** Two vectors agreeing on a prefix that holds the first `-o` and its value agree on
      the value of `-o`. */
  lemma OutputInSharedPrefix(r: seq<string>, args: seq<string>, n: nat)
    requires n <= |r| && n <= |args| && r[..n] == args[..n]
    requires "-o" in args && ArgsParser.IndexOf(args, "-o") + 1 < n
    ensures ArgsParser.GetArgVal(r, "-o") == args[ArgsParser.IndexOf(args, "-o") + 1]
  {
    var p := args[..n];
    assert r == p + r[n..];
    assert args == p + args[n..];
    ArgsParser.IndexOfAppend(p, args[n..], "-o");
    ArgsParser.GetArgValInPrefix(p, r[n..], "-o");
  }

  /** When `-o` and its value come before any `-x` or `-c`, buildBitcode returns that value. */
  lemma BuildOutputOfLeadingOutput(args: seq<string>, bitcodeFilepath: string)
    requires BuildArgsSafe(args) && "-o" in args
    requires var io := ArgsParser.IndexOf(args, "-o");
      io + 1 < |args| && "-x" !in args[..io + 2] && "-c" !in args[..io + 2]
    ensures BuildOutput(args, bitcodeFilepath) == args[ArgsParser.IndexOf(args, "-o") + 1]
  {
    var n := ArgsParser.IndexOf(args, "-o") + 2;
    BuildArgsKeepPrefix(args, bitcodeFilepath, n);
    OutputInSharedPrefix(BuildArgs(args, bitcodeFilepath), args, n);
  }

  /** Without any `-o` (and with a bitcode path that is not `-o`), buildBitcode finds no
      output and fails with "missing -o argument". */
  lemma BuildOutputMissing(args: seq<string>, bitcodeFilepath: string)
    requires BuildArgsSafe(args) && "-o" !in args && bitcodeFilepath != "-o"
    ensures BuildOutput(args, bitcodeFilepath) == ""
  {
    var s := ArgsParser.RemoveArg(args, "-x", true);
    ArgsParser.RemoveArgKeepsAbsent(args, "-x", true, "-o");
    BuildIrArgsSafe(args);
    ArgsParser.NotInAppend(s, ["-x", "ir"], "-o");
    var c := ArgsParser.RemoveArg(BuildIrArgs(args), "-c", true);
    ArgsParser.RemoveArgKeepsAbsent(BuildIrArgs(args), "-c", true, "-o");
    if bitcodeFilepath == "" {
      ArgsParser.NotInAppend(c, ["-c"], "-o");
      ArgsParser.NotInAppend(c + ["-c"], [NoUnusedArgumentWarning], "-o");
    } else {
      ArgsParser.NotInAppend(c, ["-c", bitcodeFilepath], "-o");
      ArgsParser.NotInAppend(c + ["-c", bitcodeFilepath], [NoUnusedArgumentWarning], "-o");
    }
  }

  lemma BuildArgsOfPlainCompileVector(args: seq<string>, src: string, out: string, bitcodeFilepath: string)
    requires PlainArg(src) && PlainArg(out) && args == ["-c", src, "-o", out] && bitcodeFilepath != ""
    ensures BuildArgsSafe(args)
    ensures BuildArgs(args, bitcodeFilepath) == ["-o", out, "-x", "ir", "-c", bitcodeFilepath, NoUnusedArgumentWarning]
  {
    assert "-x" !in args;
    assert ArgsParser.IndexOf(args, "-c") == 0;
    BuildArgsWithCompileValue(args, bitcodeFilepath);
    DropLeadingPair(BuildArgs(args, bitcodeFilepath), "-c", src, "-o", out, "-x", "ir", "-c", bitcodeFilepath, NoUnusedArgumentWarning);
  }

  lemma DropLeadingPair<T>(r: seq<T>, a: T, b: T, c: T, d: T, x: T, y: T, z: T, w: T, v: T)
    requires r == [a, b, c, d][..0] + [a, b, c, d][2..] + [x, y, z, w, v]
    ensures r == [c, d, x, y, z, w, v]
  {
    assert [a, b, c, d][..0] + [a, b, c, d][2..] == [c, d];
  }

  lemma LeadingOutput(r: seq<string>, out: string)
    requires |r| >= 2 && r[0] == "-o" && r[1] == out
    ensures ArgsParser.GetArgVal(r, "-o") == out
  {
    assert ArgsParser.IndexOf(r, "-o") == 0;
  }

  /** A plain `-c <src> -o <out>` compile: buildBitcode keeps `-o <out>`, compiles the
      bitcode as IR and reports `<out>` as its output. */
  lemma BuildArgsOfPlainCompile(args: seq<string>, src: string, out: string, bitcodeFilepath: string)
    requires PlainArg(src) && PlainArg(out) && args == ["-c", src, "-o", out] && bitcodeFilepath != ""
    ensures BuildArgsSafe(args)
    ensures BuildArgs(args, bitcodeFilepath) == ["-o", out, "-x", "ir", "-c", bitcodeFilepath, NoUnusedArgumentWarning]
    ensures BuildOutput(args, bitcodeFilepath) == out
  {
    BuildArgsOfPlainCompileVector(args, src, out, bitcodeFilepath);
    LeadingOutput(BuildArgs(args, bitcodeFilepath), out);
  }
}
