/** argsparser/argsparser.go: the command-line rewriting primitives. An argument vector
    is a `seq<string>`; the "value" of a flag is simply the element after it.

    Each primitive is a function stating what the Go code computes; the Go loops
    themselves are the methods Scan*, FilterRegexArg and RemoveArgInPlace, each proved
    to compute its function. */
module ArgsParser {
  import opened Wrappers
  import FilePath
  import Util

  // ---------------------------------------------------------------------------
  // Positions

  /** The index of the first element equal to `target`, or |args| when there is none. */
  function IndexOf(args: seq<string>, target: string): (i: nat)
    ensures i <= |args|
    ensures i < |args| ==> args[i] == target
    ensures forall j :: 0 <= j < i ==> args[j] != target
    ensures i == |args| <==> target !in args
  {
    if args == [] then 0
    else if args[0] == target then 0
    else 1 + IndexOf(args[1..], target)
  }

  lemma {:induction false} IndexOfAppend(a: seq<string>, b: seq<string>, target: string)
    ensures target in a ==> IndexOf(a + b, target) == IndexOf(a, target)
    ensures target !in a ==> IndexOf(a + b, target) == |a| + IndexOf(b, target)
  {
    var i := IndexOf(a + b, target);
    if target in a {
      var k := IndexOf(a, target);
      assert (a + b)[k] == target;
    } else {
      assert forall j :: 0 <= j < |a| ==> (a + b)[j] == a[j];
      if i < |a + b| {
        assert (a + b)[i] == b[i - |a|];
        assert forall j :: 0 <= j < i - |a| ==> b[j] == (a + b)[j + |a|];
      } else {
        assert forall j :: 0 <= j < |b| ==> b[j] == (a + b)[j + |a|];
      }
    }
  }

  // ---------------------------------------------------------------------------
  // RemoveArg

  /** RemoveArg with removeArgVal set does `args[i+1:]` twice for the first match `i`;
      the second slice is out of range (a Go panic) when the match is the last element. */
  predicate RemoveArgSafe(args: seq<string>, target: string, removeArgVal: bool)
  {
    removeArgVal && target != "" && target in args ==> IndexOf(args, target) + 1 < |args|
  }

  /** RemoveArg: drops the first element equal to `target`, and also the element after
      it when `removeArgVal` is set; no-op when `target` is empty or absent. */
  function RemoveArg(args: seq<string>, target: string, removeArgVal: bool): (r: seq<string>)
    requires RemoveArgSafe(args, target, removeArgVal)
    ensures |r| < |args| <==> target != "" && target in args
    ensures target == "" || target !in args ==> r == args
  {
    if target == "" then args
    else
      var i := IndexOf(args, target);
      if i == |args| then args
      else
        var k := if removeArgVal then 2 else 1;
        assert args == args[..i] + args[i..i + k] + args[i + k..];
        args[..i] + args[i + k..]
  }

  /** Cutting a pair out of `s` before appending `t` is cutting it out of `s + t`. */
  lemma CutPairOfAppend<T>(s: seq<T>, t: seq<T>, i: nat)
    requires i + 1 < |s|
    ensures (s + t)[..i] + (s + t)[i + 2..] == s[..i] + s[i + 2..] + t
  {
    assert (s + t)[..i] == s[..i];
    assert (s + t)[i + 2..] == s[i + 2..] + t;
  }

  /** Cutting the last element of `s` and the first one appended after it. */
  lemma CutPairAtEnd<T>(s: seq<T>, x: T, y: T, i: nat)
    requires i + 1 == |s|
    ensures (s + [x, y])[..i] + (s + [x, y])[i + 2..] == s[..i] + [y]
  {
    assert (s + [x, y])[..i] == s[..i];
    assert (s + [x, y])[i + 2..] == [y];
  }

  /** A match with its value inside `s` is removed there, whatever is appended. */
  lemma RemoveArgOfAppend(s: seq<string>, t: seq<string>, target: string)
    requires target != "" && IndexOf(s, target) + 1 < |s|
    ensures RemoveArgSafe(s + t, target, true)
    ensures RemoveArg(s + t, target, true) == RemoveArg(s, target, true) + t
  {
    IndexOfAppend(s, t, target);
    var i := IndexOf(s, target);
    assert (s + t)[i] == target;
    RemoveArgAt(s + t, target, true);
    RemoveArgAt(s, target, true);
    CutPairOfAppend(s, t, i);
    SameHead(RemoveArg(s + t, target, true), RemoveArg(s, target, true), s[..i] + s[i + 2..], t);
  }

  /** `p` is `a + t` and `q` is `a`: so `p` is `q + t`. */
  lemma SameHead<T>(p: seq<T>, q: seq<T>, a: seq<T>, t: seq<T>)
    requires p == a + t && q == a
    ensures p == q + t
  {
  }

  /** A match as the last element of `s` takes the first appended element with it. */
  lemma RemoveArgLastOfAppend(s: seq<string>, x: string, y: string, target: string)
    requires target != "" && IndexOf(s, target) + 1 == |s|
    ensures RemoveArgSafe(s + [x, y], target, true)
    ensures RemoveArg(s + [x, y], target, true) == s[..|s| - 1] + [y]
  {
    IndexOfAppend(s, [x, y], target);
    CutPairAtEnd(s, x, y, IndexOf(s, target));
  }

  /** Without its value, RemoveArg deletes exactly one copy of `target` (RemoveArgAt
      says which: the first). */
  lemma RemoveArgFirstOccurrence(args: seq<string>, target: string)
    requires target != "" && target in args
    ensures var r := RemoveArg(args, target, false);
      && |r| == |args| - 1
      && multiset(r) == multiset(args) - multiset{target}
      && multiset(r)[target] == multiset(args)[target] - 1
  {
    var i := IndexOf(args, target);
    RemoveArgAt(args, target, false);
    Splice(args, i, 1, RemoveArg(args, target, false));
    SliceOne(args, i);
    MinusOne(multiset(args), target);
  }

  lemma SliceOne<T>(s: seq<T>, i: nat)
    requires i < |s|
    ensures multiset(s[i..i + 1]) == multiset{s[i]}
  {
    assert s[i..i + 1] == [s[i]];
  }

  lemma MinusOne<T>(m: multiset<T>, x: T)
    requires x in m
    ensures (m - multiset{x})[x] == m[x] - 1
  {
  }

  /** With its value, RemoveArg deletes the first occurrence and the element after it,
      and nothing else. */
  lemma RemoveArgWithValue(args: seq<string>, target: string)
    requires target != "" && target in args && RemoveArgSafe(args, target, true)
    ensures var r := RemoveArg(args, target, true); var i := IndexOf(args, target);
      && |r| == |args| - 2
      && multiset(args) == multiset(r) + multiset{target, args[i + 1]}
  {
    var i := IndexOf(args, target);
    RemoveArgAt(args, target, true);
    var r := RemoveArg(args, target, true);
    Splice(args, i, 2, r);
    MultisetOfPair(args, i);
  }

  lemma MultisetOfPair(s: seq<string>, i: nat)
    requires i + 2 <= |s|
    ensures multiset(s[i..i + 2]) == multiset{s[i], s[i + 1]}
  {
    assert s[i..i + 2] == [s[i]] + [s[i + 1]];
  }

  /** Cutting `k` elements out at `i`: exactly the cut elements leave the multiset. */
  lemma Splice(s: seq<string>, i: nat, k: nat, r: seq<string>)
    requires i + k <= |s| && r == s[..i] + s[i + k..]
    ensures |r| == |s| - k
    ensures multiset(s) == multiset(r) + multiset(s[i..i + k])
    ensures multiset(r) == multiset(s) - multiset(s[i..i + k])
  {
    SpliceMultiset(s, i, k);
    SumMinus(multiset(r), multiset(s[i..i + k]));
  }

  lemma SumMinus(a: multiset<string>, b: multiset<string>)
    ensures (a + b) - b == a
  {
    forall x | true
      ensures ((a + b) - b)[x] == a[x]
    {
    }
  }

  /** Cutting `k` elements out at `i` splits the multiset in two. */
  lemma SpliceMultiset(s: seq<string>, i: nat, k: nat)
    requires i + k <= |s|
    ensures multiset(s) == multiset(s[..i] + s[i + k..]) + multiset(s[i..i + k])
  {
    assert s == s[..i] + s[i..i + k] + s[i + k..];
  }

  /** RemoveArg only ever takes elements away: the result is a sub-multiset. */
  lemma RemoveArgSubset(args: seq<string>, target: string, removeArgVal: bool)
    requires RemoveArgSafe(args, target, removeArgVal)
    ensures multiset(RemoveArg(args, target, removeArgVal)) <= multiset(args)
  {
    if target != "" && target in args {
      var i := IndexOf(args, target);
      var k := if removeArgVal then 2 else 1;
      assert args == args[..i] + args[i..i + k] + args[i + k..];
    }
  }

  /** RemoveArg adds nothing: an element absent before is absent after. */
  lemma RemoveArgKeepsAbsent(args: seq<string>, target: string, removeArgVal: bool, x: string)
    requires RemoveArgSafe(args, target, removeArgVal) && x !in args
    ensures x !in RemoveArg(args, target, removeArgVal)
  {
    RemoveArgSubset(args, target, removeArgVal);
    assert multiset(RemoveArg(args, target, removeArgVal))[x] <= multiset(args)[x];
  }

  lemma NotInAppend<T>(a: seq<T>, b: seq<T>, x: T)
    requires x !in a && x !in b
    ensures x !in a + b
  {
  }

  /** A prefix without `target` survives RemoveArg untouched. */
  lemma RemoveArgKeepsPrefix(args: seq<string>, target: string, removeArgVal: bool, n: nat)
    requires RemoveArgSafe(args, target, removeArgVal)
    requires n <= |args| && target !in args[..n]
    ensures var r := RemoveArg(args, target, removeArgVal); n <= |r| && r[..n] == args[..n]
  {
    if target != "" && target in args {
      RemoveArgAt(args, target, removeArgVal);
    }
  }

  /** Counted as a multiset, RemoveArg without its value takes away one `target` when
      there is one and nothing otherwise (multiset difference stops at zero). */
  lemma RemoveArgMultiset(args: seq<string>, target: string)
    requires target != ""
    ensures multiset(RemoveArg(args, target, false)) == multiset(args) - multiset{target}
  {
    if target in args {
      RemoveArgFirstOccurrence(args, target);
    } else {
      assert multiset(args)[target] == 0;
    }
  }

  lemma RemoveArgAt(args: seq<string>, target: string, removeArgVal: bool)
    requires RemoveArgSafe(args, target, removeArgVal)
    requires target != "" && target in args
    ensures var i := IndexOf(args, target);
      RemoveArg(args, target, removeArgVal) == args[..i] + args[i + (if removeArgVal then 2 else 1)..]
  {
  }

  /** One `append(args[:i], args[i+1:]...)`: the rest of the slice moves one place left,
      in the caller's backing array. */
  method ShiftLeft<T>(a: array<T>, n: nat, i: nat)
    requires i < n <= a.Length
    modifies a
    ensures a[..n - 1] == old(a[..n])[..i] + old(a[..n])[i + 1..]
    ensures a[n - 1] == old(a[n - 1])
    ensures forall j :: n <= j < a.Length ==> a[j] == old(a[j])
  {
    ghost var s := a[..n];
    var k := i;
    while k < n - 1
      invariant i <= k <= n - 1
      invariant forall j :: 0 <= j < i ==> a[j] == old(a[j])
      invariant forall j :: i <= j < k ==> a[j] == old(a[j + 1])
      invariant forall j :: k <= j < a.Length ==> a[j] == old(a[j])
    {
      a[k] := a[k + 1];
      k := k + 1;
    }
    ghost var r := s[..i] + s[i + 1..];
    forall j | 0 <= j < n - 1
      ensures a[j] == r[j]
    {
      if j >= i {
        assert r[j] == s[j + 1];
      }
    }
    assert a[..n - 1] == r;
  }

  /** Cutting at `i` twice cuts the pair at `i`. */
  lemma CutTwice<T>(s: seq<T>, t: seq<T>, i: nat)
    requires i + 2 <= |s| && t == s[..i] + s[i + 1..]
    ensures t[..i] + t[i + 1..] == s[..i] + s[i + 2..]
    ensures t[|t| - 1] == s[|s| - 1]
  {
    assert t[..i] == s[..i];
    assert t[i + 1..] == s[i + 2..];
  }

  /** Two shifts at `i`, as the Go code does to drop a flag and its value. */
  method ShiftLeftTwice<T>(a: array<T>, n: nat, i: nat)
    requires i + 2 <= n <= a.Length
    modifies a
    ensures a[..n - 2] == old(a[..n])[..i] + old(a[..n])[i + 2..]
    ensures a[n - 2] == old(a[n - 1]) && a[n - 1] == old(a[n - 1])
    ensures forall j :: n <= j < a.Length ==> a[j] == old(a[j])
  {
    ghost var s := a[..n];
    ShiftLeft(a, n, i);
    ghost var t := a[..n - 1];
    ghost var last := a[n - 1];
    ShiftLeft(a, n - 1, i);
    assert a[n - 2] == t[n - 2] && a[n - 1] == last;
    CutTwice(s, t, i);
  }

  /** `k` (one or two) consecutive shifts at `i`: `a[..n - k]` is the slice with
      `a[i..i + k]` cut out, and the vacated cells still hold the old last element. */
  method CutOut<T>(a: array<T>, n: nat, i: nat, k: nat)
    requires 1 <= k <= 2 && i + k <= n <= a.Length
    modifies a
    ensures a[..n - k] == old(a[..n])[..i] + old(a[..n])[i + k..]
    ensures forall j :: n - k <= j < n ==> a[j] == old(a[n - 1])
    ensures forall j :: n <= j < a.Length ==> a[j] == old(a[j])
  {
    if k == 1 {
      ShiftLeft(a, n, i);
    } else {
      ShiftLeftTwice(a, n, i);
    }
  }

  /** The scan of the Go loop: the first index of `target` in `a[..n]`, or n. */
  method FindArg(a: array<string>, n: nat, target: string) returns (i: nat)
    requires n <= a.Length
    ensures i == IndexOf(a[..n], target)
  {
    i := 0;
    while i < n && a[i] != target
      invariant 0 <= i <= n
      invariant forall j :: 0 <= j < i ==> a[..n][j] != target
    {
      i := i + 1;
    }
  }

  /** RemoveArg as Go runs it on the backing array of a slice `a[..n]`: the new slice is
      `a[..m]`; the cells the shift vacates keep a copy of the old last element. */
  method RemoveArgInPlace(a: array<string>, n: nat, target: string, removeArgVal: bool) returns (m: nat)
    requires n <= a.Length
    requires RemoveArgSafe(a[..n], target, removeArgVal)
    modifies a
    ensures m <= n
    ensures a[..m] == RemoveArg(old(a[..n]), target, removeArgVal)
    ensures forall j :: m <= j < n ==> a[j] == old(a[n - 1])
    ensures forall j :: n <= j < a.Length ==> a[j] == old(a[j])
  {
    ghost var s := a[..n];
    if target == "" {
      return n;
    }
    var i := FindArg(a, n, target);
    if i == n {
      return n;
    }
    var k := if removeArgVal then 2 else 1;
    RemoveArgAt(s, target, removeArgVal);
    CutOut(a, n, i, k);
    m := n - k;
  }

  // ---------------------------------------------------------------------------
  // RemoveRegexArg

  /** The elements of `args` that do not match, in their original order. */
  function Keep(args: seq<string>, matches: string -> bool): (r: seq<string>)
    ensures forall j :: 0 <= j < |r| ==> !matches(r[j])
  {
    if args == [] then []
    else
      var last := args[|args| - 1];
      assert args == args[..|args| - 1] + [last];
      Keep(args[..|args| - 1], matches) + (if matches(last) then [] else [last])
  }

  /** Keep drops every copy of a matching element and keeps every copy of the others. */
  lemma {:induction false} KeepCounts(args: seq<string>, matches: string -> bool, x: string)
    ensures multiset(Keep(args, matches))[x] == if matches(x) then 0 else multiset(args)[x]
  {
    if args != [] {
      var init := args[..|args| - 1];
      assert args == init + [args[|args| - 1]];
      KeepCounts(init, matches, x);
    }
  }

  /** Keep works element by element, so it keeps relative order. */
  lemma {:induction false} KeepConcat(a: seq<string>, b: seq<string>, matches: string -> bool)
    ensures Keep(a + b, matches) == Keep(a, matches) + Keep(b, matches)
  {
    if b == [] {
      assert a + b == a;
    } else {
      var last := b[|b| - 1];
      assert (a + b)[..|a + b| - 1] == a + b[..|b| - 1];
      KeepConcat(a, b[..|b| - 1], matches);
    }
  }

  /** Keep leaves a vector with no matching element as it is. */
  lemma {:induction false} KeepNothingToRemove(args: seq<string>, matches: string -> bool)
    requires forall j :: 0 <= j < |args| ==> !matches(args[j])
    ensures Keep(args, matches) == args
  {
    if args != [] {
      KeepNothingToRemove(args[..|args| - 1], matches);
    }
  }

  /** RemoveRegexArg, with the compiled regular expression's unanchored MatchString
      given as `matches`: no-op for an empty expression, otherwise every matching
      element goes, duplicates included. */
  function RemoveRegexArg(args: seq<string>, regex: string, matches: string -> bool): (r: seq<string>)
    ensures regex == "" ==> r == args
    ensures regex != "" ==> forall j :: 0 <= j < |r| ==> !matches(r[j])
  {
    if regex == "" then args else Keep(args, matches)
  }

  /** With a non-empty expression, every copy of a matching element goes and every copy
      of another stays, so the result is a sub-multiset of the input. */
  lemma RemoveRegexArgCounts(args: seq<string>, regex: string, matches: string -> bool)
    requires regex != ""
    ensures forall x :: multiset(RemoveRegexArg(args, regex, matches))[x] == if matches(x) then 0 else multiset(args)[x]
    ensures multiset(RemoveRegexArg(args, regex, matches)) <= multiset(args)
  {
    forall x
      ensures multiset(RemoveRegexArg(args, regex, matches))[x] == if matches(x) then 0 else multiset(args)[x]
    {
      KeepCounts(args, matches, x);
    }
  }

  /** The Go loop: accumulate the non-matching elements into a new slice. */
  method FilterRegexArg(args: seq<string>, regex: string, matches: string -> bool) returns (newArgs: seq<string>)
    ensures newArgs == RemoveRegexArg(args, regex, matches)
  {
    if regex == "" {
      return args;
    }
    newArgs := [];
    for i := 0 to |args|
      invariant newArgs == Keep(args[..i], matches)
    {
      assert args[..i + 1][..i] == args[..i];
      if matches(args[i]) {
        continue;
      }
      newArgs := newArgs + [args[i]];
    }
    assert args[..|args|] == args;
  }

  // ---------------------------------------------------------------------------
  // AddArg, HasArg, GetArgVal

  /** AddArg: appends `newArg`, then `newArgVal` if it is non-empty; no-op for an empty
      `newArg`. Nothing already in the vector moves. */
  function AddArg(args: seq<string>, newArg: string, newArgVal: string): (r: seq<string>)
    ensures args <= r
    ensures |r| == |args| + (if newArg == "" then 0 else if newArgVal == "" then 1 else 2)
    ensures newArg != "" ==> r[|args|] == newArg
    ensures newArg != "" && newArgVal != "" ==> r[|args| + 1] == newArgVal
  {
    if newArg == "" then args
    else if newArgVal == "" then args + [newArg]
    else args + [newArg, newArgVal]
  }

  /** HasArg: some element equals a non-empty `target`. */
  function HasArg(args: seq<string>, target: string): (b: bool)
    ensures b <==> target != "" && IndexOf(args, target) < |args|
  {
    |args| != 0 && target != "" && target in args
  }

  method ScanHasArg(args: seq<string>, target: string) returns (found: bool)
    ensures found == HasArg(args, target)
  {
    if |args| == 0 || |target| == 0 {
      return false;
    }
    for i := 0 to |args|
      invariant target !in args[..i]
    {
      if args[i] == target {
        return true;
      }
      assert args[..i + 1] == args[..i] + [args[i]];
    }
    assert args[..|args|] == args;
    return false;
  }

  /** GetArgVal: the element after the first occurrence of `target`; "" when `target` is
      empty or absent or that occurrence is the last element. */
  function GetArgVal(args: seq<string>, target: string): (v: string)
    ensures target == "" || target !in args ==> v == ""
    ensures target != "" && IndexOf(args, target) + 1 < |args| ==> v == args[IndexOf(args, target) + 1]
    ensures target != "" && IndexOf(args, target) + 1 == |args| ==> v == ""
  {
    if |args| == 0 || target == "" then ""
    else
      var i := IndexOf(args, target);
      if i + 1 < |args| then args[i + 1] else ""
  }

  /** The Go loop returns at the first match that has a successor; since only the last
      element lacks one, that is the first match or nothing. */
  method ScanGetArgVal(args: seq<string>, target: string) returns (v: string)
    ensures v == GetArgVal(args, target)
  {
    if |args| == 0 || |target| == 0 {
      return "";
    }
    for i := 0 to |args|
      invariant forall j :: 0 <= j < i ==> !(args[j] == target && j + 1 < |args|)
    {
      if args[i] == target && i + 1 < |args| {
        assert IndexOf(args, target) == i;
        return args[i + 1];
      }
    }
    assert IndexOf(args, target) + 1 >= |args|;
    return "";
  }

  /** Adding a flag makes HasArg true of it. */
  lemma AddArgThenHasArg(args: seq<string>, newArg: string, newArgVal: string)
    requires newArg != ""
    ensures HasArg(AddArg(args, newArg, newArgVal), newArg)
  {
    assert AddArg(args, newArg, newArgVal)[|args|] == newArg;
  }

  /** Adding a flag the vector did not have, then reading its value, gives the value. */
  lemma AddArgThenGetArgVal(args: seq<string>, newArg: string, newArgVal: string)
    requires newArg != "" && newArg !in args
    ensures GetArgVal(AddArg(args, newArg, newArgVal), newArg) == newArgVal
  {
    var r := AddArg(args, newArg, newArgVal);
    IndexOfAppend(args, r[|args|..], newArg);
    assert r == args + r[|args|..];
  }

  /** Removing a flag the vector did not have right after adding it (with its value
      when it has one) restores the vector. */
  lemma AddArgThenRemoveArg(args: seq<string>, newArg: string, newArgVal: string)
    requires newArg != "" && newArg !in args
    ensures RemoveArgSafe(AddArg(args, newArg, newArgVal), newArg, newArgVal != "")
    ensures RemoveArg(AddArg(args, newArg, newArgVal), newArg, newArgVal != "") == args
  {
    var r := AddArg(args, newArg, newArgVal);
    IndexOfAppend(args, r[|args|..], newArg);
    assert r == args + r[|args|..];
  }

  // ---------------------------------------------------------------------------
  // GetSourceFileName (the variant with an error result)

  datatype SourceError =
    | UnknownExtension(name: string, ext: string)  // the -c value's extension is not a source one
    | SourceNotFound                                // no -c value and no source-like element

  /** The (name, type, error) triple that GetSourceFileName returns. */
  datatype SourceLookup = SourceLookup(name: string, kind: Util.SourceFileType, err: Option<SourceError>)

  /** An element whose base name has a known source extension. */
  predicate IsSourceLike(arg: string)
  {
    Util.FetchSourceFileType(FilePath.Base(arg)).err.None?
  }

  /** The index of the first element satisfying `p`, or |args|. */
  function FirstIndexWhere(args: seq<string>, p: string -> bool): (j: nat)
    ensures j <= |args|
    ensures j < |args| ==> p(args[j])
    ensures forall k :: 0 <= k < j ==> !p(args[k])
  {
    if args == [] then 0
    else if p(args[0]) then 0
    else 1 + FirstIndexWhere(args[1..], p)
  }

  /** Two tests that agree on every element find the same first index. */
  lemma {:induction false} FirstIndexWhereAgree(args: seq<string>, p: string -> bool, q: string -> bool)
    requires forall j :: 0 <= j < |args| ==> p(args[j]) == q(args[j])
    ensures FirstIndexWhere(args, p) == FirstIndexWhere(args, q)
  {
    if args != [] && !p(args[0]) {
      FirstIndexWhereAgree(args[1..], p, q);
    }
  }

  /** None of the first `i` elements satisfies `p`. */
  predicate NoneBefore(args: seq<string>, p: string -> bool, i: nat)
    requires i <= |args|
  {
    i == 0 || (!p(args[i - 1]) && NoneBefore(args, p, i - 1))
  }

  lemma {:induction false} NoneBeforeAll(args: seq<string>, p: string -> bool, i: nat)
    requires i <= |args| && NoneBefore(args, p, i)
    ensures forall k :: 0 <= k < i ==> !p(args[k])
  {
    if i > 0 {
      NoneBeforeAll(args, p, i - 1);
    }
  }

  /** An element satisfying `p` after a prefix with none is the first one; with none
      at all, the search runs off the end. */
  lemma FirstIndexAfterNone(args: seq<string>, p: string -> bool, i: nat)
    requires i <= |args| && NoneBefore(args, p, i)
    requires i < |args| ==> p(args[i])
    ensures FirstIndexWhere(args, p) == i
  {
    NoneBeforeAll(args, p, i);
  }

  /** The index of the first source-like element, or |args|. */
  function FirstSourceIndex(args: seq<string>): nat
  {
    FirstIndexWhere(args, IsSourceLike)
  }

  /** GetSourceFileName: the base name of the -c value, classified, with an error when
      its extension is unknown; without a -c value, the first source-like element. */
  function GetSourceFileName(args: seq<string>): (r: SourceLookup)
    ensures r.err.None? <==> r.kind != Util.Unknown
    ensures r.err == Some(SourceNotFound) ==> r.name == ""
    ensures r.name != "" ==> r.name == FilePath.Base(r.name)
  {
    var v := GetArgVal(args, "-c");
    if v != "" then
      var name := FilePath.Base(v);
      FilePath.BaseIdempotent(v);
      var t := Util.FetchSourceFileType(name);
      if t.err.Some? then SourceLookup(name, Util.Unknown, Some(UnknownExtension(name, t.err.value)))
      else SourceLookup(name, t.kind, None)
    else ScanLookup(args)
  }

  /** The fallback of GetSourceFileName: the first source-like element, or "" and
      SourceNotFound. */
  function ScanLookup(args: seq<string>): (r: SourceLookup)
    ensures r.err.None? <==> r.kind != Util.Unknown
    ensures r.err == Some(SourceNotFound) ==> r.name == ""
    ensures r.name != "" ==> r.name == FilePath.Base(r.name)
  {
    var j := FirstSourceIndex(args);
    if j < |args| then
      var name := FilePath.Base(args[j]);
      FilePath.BaseIdempotent(args[j]);
      SourceLookup(name, Util.FetchSourceFileType(name).kind, None)
    else SourceLookup("", Util.Unknown, Some(SourceNotFound))
  }

  /** A non-empty -c value decides alone: its base name, and an error exactly when its
      extension is unknown. */
  lemma GetSourceFileNameFromCompileValue(args: seq<string>)
    requires GetArgVal(args, "-c") != ""
    ensures var r := GetSourceFileName(args); var name := FilePath.Base(GetArgVal(args, "-c"));
      && r.name == name
      && r.kind == Util.FetchSourceFileType(name).kind
      && (r.err.Some? <==> Util.FetchSourceFileType(name).kind == Util.Unknown)
  {
  }

  /** A flag whose value lies in a prefix is looked up there, whatever follows. */
  lemma GetArgValInPrefix(prefix: seq<string>, other: seq<string>, target: string)
    requires target != "" && target in prefix && IndexOf(prefix, target) + 1 < |prefix|
    ensures GetArgVal(prefix + other, target) == GetArgVal(prefix, target)
  {
    IndexOfAppend(prefix, other, target);
    assert (prefix + other)[IndexOf(prefix, target) + 1] == prefix[IndexOf(prefix, target) + 1];
  }

  /** So with a -c value no fallback scan happens: later elements never matter. */
  lemma GetSourceFileNameNoFallback(args: seq<string>, other: seq<string>)
    requires GetArgVal(args, "-c") != ""
    ensures GetSourceFileName(args + other) == GetSourceFileName(args)
  {
    GetArgValInPrefix(args, other, "-c");
  }

  /** Without a -c value: the first source-like element in vector order, or "" and
      SourceNotFound when there is none. */
  lemma GetSourceFileNameByScan(args: seq<string>)
    requires GetArgVal(args, "-c") == ""
    ensures var r := GetSourceFileName(args);
      && (r.err.None? <==> exists j :: 0 <= j < |args| && IsSourceLike(args[j]))
      && (r.err.None? ==>
            exists j :: 0 <= j < |args| && IsSourceLike(args[j]) && r.name == FilePath.Base(args[j]) &&
              forall k :: 0 <= k < j ==> !IsSourceLike(args[k]))
      && (r.err.Some? ==> r == SourceLookup("", Util.Unknown, Some(SourceNotFound)))
  {
    var j := FirstSourceIndex(args);
    if j < |args| {
      assert IsSourceLike(args[j]);
    }
  }

  /** The Go function: the -c lookup, then a scan with early return. */
  method ScanSourceFileName(args: seq<string>) returns (r: SourceLookup)
    ensures r == GetSourceFileName(args)
  {
    var sourceFileName := ScanGetArgVal(args, "-c");
    if |sourceFileName| != 0 {
      sourceFileName := FilePath.Base(sourceFileName);
      var t := Util.FetchSourceFileType(sourceFileName);
      if t.err.Some? {
        return SourceLookup(sourceFileName, Util.Unknown, Some(UnknownExtension(sourceFileName, t.err.value)));
      }
      return SourceLookup(sourceFileName, t.kind, None);
    }
    for i := 0 to |args|
      invariant NoneBefore(args, IsSourceLike, i)
    {
      var arg := FilePath.Base(args[i]);
      var t := Util.FetchSourceFileType(arg);
      if t.err.Some? {
        continue;
      }
      FirstIndexAfterNone(args, IsSourceLike, i);
      return SourceLookup(arg, t.kind, None);
    }
    FirstIndexAfterNone(args, IsSourceLike, |args|);
    return SourceLookup("", Util.Unknown, Some(SourceNotFound));
  }

  /** The -c strategy wins over the scan: `-c x/foo.cpp` gives foo.cpp, C++, even with a
      C file later in the vector. */
  lemma GetSourceFileNameExample()
    ensures GetSourceFileName(["-c", "x/foo.cpp", "bar.c"]) == SourceLookup("foo.cpp", Util.CPP, None)
  {
    var args := ["-c", "x/foo.cpp", "bar.c"];
    CompileValueOfExample();
    BaseOfExample();
    Util.FetchSourceFileTypeOfCpp();
    GetSourceFileNameFromCompileValue(args);
  }

  lemma CompileValueOfExample()
    ensures GetArgVal(["-c", "x/foo.cpp", "bar.c"], "-c") == "x/foo.cpp"
  {
    assert IndexOf(["-c", "x/foo.cpp", "bar.c"], "-c") == 0;
  }

  lemma BaseOfExample()
    ensures FilePath.Base("x/foo.cpp") == "foo.cpp"
  {
    FilePath.BaseOfJoin("x", "foo.cpp");
    assert "x" + "/" + "foo.cpp" == "x/foo.cpp";
  }
}
