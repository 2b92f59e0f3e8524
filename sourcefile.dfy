/** sourcefile/sourcefile.go: the non-failing source classifier main.go uses to pick
    the compiler binary. It keeps its own copy of the extension tables and its own
    enumeration, which agree with util's. */
module SourceFile {
  import FilePath
  import ArgsParser
  import Util

  /** Type; `Code` gives the integer constant the source assigns to each. */
  datatype Type = C | CPP | OBJC | Unknown

  function Code(t: Type): int
  {
    match t
    case C => 1
    case CPP => 2
    case OBJC => 3
    case Unknown => -1
  }

  const CppFileExtensions: seq<string> := [".cpp", ".cc", ".cxx", ".c++"]
  const ObjcFileExtensions: seq<string> := [".m"]
  const CFileExtensions: seq<string> := [".c"]

  /** FetchType: the C++ table first, then Objective-C, then C; anything else is Unknown. */
  function FetchType(path: string): Type
  {
    var ext := FilePath.Ext(path);
    if Util.InTable(CppFileExtensions, ext) then CPP
    else if Util.InTable(ObjcFileExtensions, ext) then OBJC
    else if Util.InTable(CFileExtensions, ext) then C
    else Unknown
  }

  /** Unknown exactly when the extension is in none of the three tables. */
  lemma FetchTypeUnknown(path: string)
    ensures FetchType(path) == Unknown <==>
      FilePath.Ext(path) !in CppFileExtensions + ObjcFileExtensions + CFileExtensions
  {
    var ext := FilePath.Ext(path);
    Util.InTableIsMembership(CppFileExtensions, ext);
    Util.InTableIsMembership(ObjcFileExtensions, ext);
    Util.InTableIsMembership(CFileExtensions, ext);
  }

  /** Only the extension matters: paths with the same extension get the same type. */
  lemma FetchTypeOnlyByExtension(p: string, q: string)
    requires FilePath.Ext(p) == FilePath.Ext(q)
    ensures FetchType(p) == FetchType(q)
  {
  }

  /** Both classifiers give the same answer, under the integer codes 1/2/3/-1. */
  lemma FetchTypeAgreesWithUtil(path: string)
    ensures Code(FetchType(path)) == Util.Code(Util.FetchSourceFileType(path).kind)
  {
    assert CppFileExtensions == Util.CppFileExtensions;
    assert ObjcFileExtensions == Util.ObjcFileExtensions;
    assert CFileExtensions == Util.CFileExtensions;
  }

  predicate IsKnownSource(arg: string)
  {
    FetchType(FilePath.Base(arg)) != Unknown
  }

  /** GetSourceFileName: (Base(v), its type) for a non-empty -c value v, even when that type
      is Unknown; otherwise the first element, in vector order, whose base name has a known
      type; otherwise ("", Unknown). */
  function GetSourceFileName(args: seq<string>): (r: (string, Type))
    ensures ArgsParser.GetArgVal(args, "-c") == "" && r.1 == Unknown ==> r.0 == ""
  {
    var v := ArgsParser.GetArgVal(args, "-c");
    if v != "" then
      var name := FilePath.Base(v);
      (name, FetchType(name))
    else
      var j := ArgsParser.FirstIndexWhere(args, IsKnownSource);
      if j < |args| then
        var name := FilePath.Base(args[j]);
        FilePath.BaseIdempotent(args[j]);
        (name, FetchType(name))
      else ("", Unknown)
  }

  /** A non-empty -c value decides: its base name and that name's type, Unknown included. */
  lemma GetSourceFileNameOfCompileValue(args: seq<string>)
    ensures var v := ArgsParser.GetArgVal(args, "-c");
      v != "" ==> GetSourceFileName(args) == (FilePath.Base(v), FetchType(FilePath.Base(v)))
  {
  }

  /** The fallback scan: a known type is found exactly when some element has one, and then
      it is the first such element's; a scan never yields a name with type Unknown. */
  lemma GetSourceFileNameByScan(args: seq<string>)
    requires ArgsParser.GetArgVal(args, "-c") == ""
    ensures var r := GetSourceFileName(args);
      && (r.1 != Unknown <==> exists j :: 0 <= j < |args| && IsKnownSource(args[j]))
      && (r.1 != Unknown ==>
            exists j :: 0 <= j < |args| && r.0 == FilePath.Base(args[j]) && IsKnownSource(args[j]) &&
              forall k :: 0 <= k < j ==> !IsKnownSource(args[k]))
      && (r.1 == Unknown ==> r == ("", Unknown))
  {
    var j := ArgsParser.FirstIndexWhere(args, IsKnownSource);
    if j < |args| {
      FilePath.BaseIdempotent(args[j]);
      assert IsKnownSource(args[j]);
    }
  }

  /** This classifier and the error-returning one in argsparser name the same file and
      give corresponding types; they differ only in that this one reports no error. */
  lemma GetSourceFileNameAgrees(args: seq<string>)
    ensures var r := GetSourceFileName(args); var s := ArgsParser.GetSourceFileName(args);
      r.0 == s.name && Code(r.1) == Util.Code(s.kind)
  {
    if ArgsParser.GetArgVal(args, "-c") != "" {
      AgreesOnCompileValue(args);
    } else {
      AgreesOnScan(args);
    }
  }

  lemma AgreesOnCompileValue(args: seq<string>)
    requires ArgsParser.GetArgVal(args, "-c") != ""
    ensures var r := GetSourceFileName(args); var s := ArgsParser.GetSourceFileName(args);
      r.0 == s.name && Code(r.1) == Util.Code(s.kind)
  {
    FetchTypeAgreesWithUtil(FilePath.Base(ArgsParser.GetArgVal(args, "-c")));
  }

  /** A name is a known source here exactly when argsparser's classifier finds it source-like. */
  lemma KnownSourceAgrees(arg: string)
    ensures IsKnownSource(arg) == ArgsParser.IsSourceLike(arg)
  {
    FetchTypeAgreesWithUtil(FilePath.Base(arg));
  }

  lemma ScanTestsAgree(args: seq<string>)
    ensures forall j :: 0 <= j < |args| ==> IsKnownSource(args[j]) == ArgsParser.IsSourceLike(args[j])
  {
    forall j | 0 <= j < |args|
      ensures IsKnownSource(args[j]) == ArgsParser.IsSourceLike(args[j])
    {
      KnownSourceAgrees(args[j]);
    }
  }

  lemma AgreesOnScan(args: seq<string>)
    requires ArgsParser.GetArgVal(args, "-c") == ""
    ensures var r := GetSourceFileName(args); var s := ArgsParser.ScanLookup(args);
      r.0 == s.name && Code(r.1) == Util.Code(s.kind)
  {
    ScanTestsAgree(args);
    ArgsParser.FirstIndexWhereAgree(args, IsKnownSource, ArgsParser.IsSourceLike);
    var j := ArgsParser.FirstIndexWhere(args, IsKnownSource);
    if j < |args| {
      FetchTypeAgreesWithUtil(FilePath.Base(args[j]));
    }
  }
}
