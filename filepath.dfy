/** The parts of Go's `path/filepath` the core relies on, with Unix semantics ('/' is
    the only separator and there are no volume names). */
module FilePath {
  import opened Text

  /** Index of the last '/' in `p`, or -1 when there is none. */
  function LastSlash(p: string): (k: int)
    ensures -1 <= k < |p|
    ensures k >= 0 ==> p[k] == '/'
    ensures forall j :: k < j < |p| ==> p[j] != '/'
  {
    if p == [] then -1
    else if p[|p| - 1] == '/' then |p| - 1
    else LastSlash(p[..|p| - 1])
  }

  /** `p` without its trailing slashes. */
  function StripTrailingSlashes(p: string): (r: string)
    ensures |r| <= |p| && r == p[..|r|]
    ensures r == [] || r[|r| - 1] != '/'
    ensures forall j :: |r| <= j < |p| ==> p[j] == '/'
  {
    if |p| > 0 && p[|p| - 1] == '/' then StripTrailingSlashes(p[..|p| - 1]) else p
  }

  /** filepath.Base: the last element of the path once trailing slashes are removed;
      "." for the empty path and "/" for a path made of slashes only. */
  function Base(p: string): (b: string)
    ensures b != ""
    ensures b == "/" || b == "." || '/' !in b
    ensures p == "" ==> b == "."
  {
    if p == "" then "."
    else
      var q := StripTrailingSlashes(p);
      if q == "" then "/" else q[LastSlash(q) + 1..]
  }

  /** Where the extension of `p[..i]` starts: the last '.' after the last '/', or -1. */
  function ExtStart(p: string, i: nat): (k: int)
    requires i <= |p|
    ensures -1 <= k < i
    ensures k >= 0 ==> p[k] == '.' && forall j :: k < j < i ==> p[j] != '.' && p[j] != '/'
    ensures k < 0 ==> forall j :: LastSlash(p[..i]) < j < i ==> p[j] != '.'
  {
    if i == 0 then -1
    else if p[i - 1] == '/' then -1
    else if p[i - 1] == '.' then i - 1
    else
      var k := ExtStart(p, i - 1);
      assert p[..i][..i - 1] == p[..i - 1];
      k
  }

  /** filepath.Ext: the suffix of `p` that starts at the last '.' of its final element,
      or "" when that element has no '.'. */
  function Ext(p: string): (e: string)
    ensures HasSuffix(p, e)
    ensures e == "" || (e[0] == '.' && '/' !in e && '.' !in e[1..])
    ensures e == "" ==> forall j :: LastSlash(p) < j < |p| ==> p[j] != '.'
  {
    assert p[..|p|] == p;
    var k := ExtStart(p, |p|);
    if k < 0 then ""
    else
      assert forall j :: 1 <= j < |p[k..]| ==> p[k..][j] == p[k + j];
      p[k..]
  }

  /** filepath.Join of a directory and a name (without the final Clean). */
  function Join(dir: string, name: string): (r: string)
    ensures dir != "" && name != "" ==> r == dir + "/" + name
  {
    if dir == "" then name else if name == "" then dir else dir + "/" + name
  }

  /** `b` is the last element of `q`: a suffix free of '/', either all of `q` or preceded
      by a '/'. */
  predicate IsLastElement(q: string, b: string)
  {
    HasSuffix(q, b) && '/' !in b && (|b| == |q| || (|b| < |q| && q[|q| - |b| - 1] == '/'))
  }

  /** Base returns the last element of the path less its trailing slashes. */
  lemma BaseIsLastElement(p: string)
    requires StripTrailingSlashes(p) != ""
    ensures IsLastElement(StripTrailingSlashes(p), Base(p))
  {
    var q := StripTrailingSlashes(p);
    var k := LastSlash(q);
    AfterLastSlash(q, k);
    BaseOfStripped(p);
    SameLastElement(q, Base(p), q[k + 1..]);
  }

  lemma SameLastElement(q: string, b: string, c: string)
    requires b == c && IsLastElement(q, c)
    ensures IsLastElement(q, b)
  {
  }

  lemma BaseOfStripped(p: string)
    requires StripTrailingSlashes(p) != ""
    ensures var q := StripTrailingSlashes(p); Base(p) == q[LastSlash(q) + 1..]
  {
  }

  lemma AfterLastSlash(q: string, k: int)
    requires -1 <= k < |q| && (k >= 0 ==> q[k] == '/')
    requires forall j :: k < j < |q| ==> q[j] != '/'
    ensures IsLastElement(q, q[k + 1..])
  {
    var b := q[k + 1..];
    forall j | 0 <= j < |b|
      ensures b[j] != '/'
    {
      assert b[j] == q[k + 1 + j];
    }
  }

  /** A non-empty name without '/' is its own base. */
  lemma BaseOfPlainName(n: string)
    requires n != "" && '/' !in n
    ensures Base(n) == n
  {
    assert n[|n| - 1] != '/';
    assert StripTrailingSlashes(n) == n;
    assert LastSlash(n) == -1;
    assert n[0..] == n;
  }

  /** The base of a path is its own base. */
  lemma BaseIdempotent(p: string)
    ensures Base(Base(p)) == Base(p)
  {
    var b := Base(p);
    if b != "/" && b != "." {
      assert StripTrailingSlashes(b) == b;
      assert LastSlash(b) == -1;
      assert b[0..] == b;
    } else if b == "." {
      assert LastSlash(".") == -1;
    } else {
      assert StripTrailingSlashes("/") == "";
    }
  }

  /** The base of `dir/name` is `name` whenever `name` is a non-empty file name. */
  lemma BaseOfJoin(dir: string, name: string)
    requires name != "" && '/' !in name
    ensures Base(dir + "/" + name) == name
  {
    var p := dir + "/" + name;
    assert p[|p| - 1] == name[|name| - 1];
    assert StripTrailingSlashes(p) == p;
    LastSlashOfSuffix(dir + "/", name);
    assert p[|dir| + 1..] == name;
  }

  lemma {:induction false} LastSlashOfSuffix(a: string, b: string)
    requires '/' !in b && a != [] && a[|a| - 1] == '/'
    ensures LastSlash(a + b) == |a| - 1
  {
    if b != [] {
      assert (a + b)[..|a + b| - 1] == a + b[..|b| - 1];
      LastSlashOfSuffix(a, b[..|b| - 1]);
    } else {
      assert a + b == a;
    }
  }

  /** A final element ending in `.x`, where `x` has neither '.' nor '/', has extension `.x`. */
  lemma ExtOfSuffix(a: string, x: string)
    requires '.' !in x && '/' !in x
    ensures Ext(a + "." + x) == "." + x
  {
    var p := a + "." + x;
    ExtStartOfSuffix(a, x, |x|);
    assert p[|a|..] == "." + x;
  }

  lemma {:induction false} ExtStartOfSuffix(a: string, x: string, n: nat)
    requires '.' !in x && '/' !in x && n <= |x|
    ensures ExtStart(a + "." + x, |a| + 1 + n) == |a|
  {
    var p := a + "." + x;
    if n > 0 {
      assert p[|a| + n] == x[n - 1];
      ExtStartOfSuffix(a, x, n - 1);
    } else {
      assert p[|a|] == '.';
    }
  }
}
