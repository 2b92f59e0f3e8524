/** The decisions main.go makes before handing over to the core: which compiler binary
    name to use, and whether a `.original` binary beside it takes its place. */
module Cli {
  import Text
  import FilePath
  import SourceFile

  /** getClangBinaryName: the program's own name when it was invoked as a clang binary
      (and not as conjunct); otherwise clang for C and clang++ for everything else. */
  function ClangBinaryName(baseProgramName: string, sourceFileType: SourceFile.Type): (name: string)
    ensures name == baseProgramName || name == "clang" || name == "clang++"
  {
    if baseProgramName != "conjunct" && Text.HasPrefix(baseProgramName, "clang") then baseProgramName
    else if sourceFileType == SourceFile.C then "clang"
    else if sourceFileType == SourceFile.CPP || sourceFileType == SourceFile.OBJC then "clang++"
    else "clang++"
  }

  /** Invoked under a clang name, the binary name is kept whatever the source type. */
  lemma ClangBinaryNameKeepsClangName(baseProgramName: string, t: SourceFile.Type)
    requires baseProgramName != "conjunct" && Text.HasPrefix(baseProgramName, "clang")
    ensures ClangBinaryName(baseProgramName, t) == baseProgramName
  {
  }

  /** Otherwise only C sources get clang; C++, Objective-C and unknown sources (the most
      permissive choice) get clang++. */
  lemma ClangBinaryNameBySourceType(baseProgramName: string, t: SourceFile.Type)
    requires baseProgramName == "conjunct" || !Text.HasPrefix(baseProgramName, "clang")
    ensures ClangBinaryName(baseProgramName, t) == (if t == SourceFile.C then "clang" else "clang++")
  {
  }

  /** The clang path main.go passes to the core: `dir/name`, or `dir/name.original` when a
      file of that name exists (`fileExists` stands for os.Stat succeeding). */
  function ClangPath(clangDirPath: string, clangBinaryName: string, fileExists: string -> bool): (path: string)
    ensures var joined := FilePath.Join(clangDirPath, clangBinaryName);
      && (fileExists(joined + ".original") <==> path == joined + ".original")
      && (path == joined || path == joined + ".original")
  {
    var joined := FilePath.Join(clangDirPath, clangBinaryName);
    var original := joined + ".original";
    if fileExists(original) then original else joined
  }
}
