/** The pure helpers of util/util.go: source-file classification by extension and the
    base name of a path without its extension. */
module Util {
  import opened Wrappers
  import FilePath
  import Text

  /** SourceFileType; `Code` gives the integer constant the source assigns to each. */
  datatype SourceFileType = C | CPP | OBJC | Unknown

  function Code(t: SourceFileType): int
  {
    match t
    case C => 1
    case CPP => 2
    case OBJC => 3
    case Unknown => -1
  }

  const CppFileExtensions: seq<string> := [".cpp", ".cc", ".cxx", ".c++"]
  const ObjcFileExtensions: seq<string> := [".m"]
  const CFileExtensions: seq<string> := [".c"]

  /** The `for _, e := range table` search: does some entry equal `ext`? */
  function InTable(table: seq<string>, ext: string): bool
  {
    table != [] && (table[0] == ext || InTable(table[1..], ext))
  }

  /** The search finds exactly the members of the table. */
  lemma {:induction false} InTableIsMembership(table: seq<string>, ext: string)
    ensures InTable(table, ext) <==> ext in table
  {
    if table != [] {
      InTableIsMembership(table[1..], ext);
      assert table == [table[0]] + table[1..];
    }
  }

  /** The pair (type, error) that FetchSourceFileType returns; the error carries the
      extension it did not recognise. */
  datatype TypeResult = TypeResult(kind: SourceFileType, err: Option<string>)

  /** FetchSourceFileType: looks the extension up in the C++ table, then the
      Objective-C table, then the C table. */
  function FetchSourceFileType(path: string): (r: TypeResult)
    ensures r.err.None? <==> r.kind != Unknown
    ensures r.err.Some? ==> r.err.value == FilePath.Ext(path)
  {
    var ext := FilePath.Ext(path);
    if InTable(CppFileExtensions, ext) then TypeResult(CPP, None)
    else if InTable(ObjcFileExtensions, ext) then TypeResult(OBJC, None)
    else if InTable(CFileExtensions, ext) then TypeResult(C, None)
    else TypeResult(Unknown, Some(ext))
  }

  /** The table, spelled out: exact, case-sensitive comparison of the extension. */
  lemma FetchSourceFileTypeTable(path: string)
    ensures var ext := FilePath.Ext(path);
      && (FetchSourceFileType(path).kind == CPP <==> ext == ".cpp" || ext == ".cc" || ext == ".cxx" || ext == ".c++")
      && (FetchSourceFileType(path).kind == OBJC <==> ext == ".m")
      && (FetchSourceFileType(path).kind == C <==> ext == ".c")
  {
    var ext := FilePath.Ext(path);
    InTableIsMembership(CppFileExtensions, ext);
    InTableIsMembership(ObjcFileExtensions, ext);
    InTableIsMembership(CFileExtensions, ext);
  }

  /** GetBasenameWithoutExtension: Base(p) with Ext(Base(p)) cut off its end. */
  function GetBasenameWithoutExtension(path: string): (r: string)
    ensures r + FilePath.Ext(FilePath.Base(path)) == FilePath.Base(path)
  {
    var base := FilePath.Base(path);
    Text.TrimSuffix(base, FilePath.Ext(base))
  }

  /** The opt stage names its output after the emitted file: for `dir/n.bc` the base
      name without extension is `n`, whatever extension `n` itself carries. */
  lemma BasenameOfBitcodeFile(dir: string, n: string)
    requires n != "" && '/' !in n
    ensures GetBasenameWithoutExtension(dir + "/" + n + ".bc") == n
  {
    var name := n + ".bc";
    assert '/' !in name by {
      forall j | 0 <= j < |name| ensures name[j] != '/' {
        if j < |n| { assert name[j] == n[j]; }
      }
    }
    assert dir + "/" + n + ".bc" == dir + "/" + name;
    FilePath.BaseOfJoin(dir, name);
    assert n + "." + "bc" == name;
    FilePath.ExtOfSuffix(n, "bc");
  }

  /** Worked cases: only the last extension counts, and the comparison is exact. */
  lemma FetchSourceFileTypeOfC()
    ensures FetchSourceFileType("hello.c").kind == C
  {
    FilePath.ExtOfSuffix("hello", "c");
    assert "hello" + "." + "c" == "hello.c";
  }

  lemma FetchSourceFileTypeOfBitcode()
    ensures FetchSourceFileType("/t/hello.c.bc").kind == Unknown
  {
    FilePath.ExtOfSuffix("/t/hello.c", "bc");
    assert "/t/hello.c" + "." + "bc" == "/t/hello.c.bc";
  }

  lemma FetchSourceFileTypeOfCpp()
    ensures FetchSourceFileType("foo.cpp") == TypeResult(CPP, None)
  {
    FilePath.ExtOfSuffix("foo", "cpp");
    assert "foo" + "." + "cpp" == "foo.cpp";
  }

  lemma FetchSourceFileTypeCaseSensitive()
    ensures FetchSourceFileType("foo.C").kind == Unknown
  {
    FilePath.ExtOfSuffix("foo", "C");
    assert "foo" + "." + "C" == "foo.C";
  }
}
