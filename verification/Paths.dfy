/** Request paths and their canonical form: `cleanPath` of netXMux.go over the rules that the Go
    package `path` documents for `Clean`. */
module Paths {
  import opened Text

  // ----- path elements -----

  /** An element that names something: not empty, not "." and not "..". */
  predicate IsName(seg: string) {
    seg != "" && seg != "." && seg != ".." && SlashFree(seg)
  }

  predicate AllNames(segs: seq<string>) {
    forall i :: 0 <= i < |segs| ==> IsName(segs[i])
  }

  /** One element applied to the stack of names kept so far. */
  function Push(stack: seq<string>, seg: string): seq<string> {
    if seg == "" || seg == "." then stack
    else if seg == ".." then (if stack == [] then [] else stack[..|stack| - 1])
    else stack + [seg]
  }

  function Reduce(stack: seq<string>, segs: seq<string>): seq<string>
    decreases |segs|
  {
    if segs == [] then stack else Reduce(Push(stack, segs[0]), segs[1..])
  }

  lemma {:induction false} ReduceKeepsNames(stack: seq<string>, segs: seq<string>)
    requires AllNames(stack)
    requires forall i :: 0 <= i < |segs| ==> SlashFree(segs[i])
    ensures AllNames(Reduce(stack, segs))
    decreases |segs|
  {
    if segs != [] {
      ReduceKeepsNames(Push(stack, segs[0]), segs[1..]);
    }
  }

  lemma {:induction false} ReduceConcat(stack: seq<string>, a: seq<string>, b: seq<string>)
    ensures Reduce(stack, a + b) == Reduce(Reduce(stack, a), b)
    decreases |a|
  {
    if a == [] {
      assert a + b == b;
    } else {
      assert (a + b)[1..] == a[1..] + b;
      ReduceConcat(Push(stack, a[0]), a[1..], b);
    }
  }

  lemma {:induction false} ReduceNames(stack: seq<string>, segs: seq<string>)
    requires AllNames(segs)
    ensures Reduce(stack, segs) == stack + segs
    decreases |segs|
  {
    if segs != [] {
      ReduceNames(stack + [segs[0]], segs[1..]);
      assert stack + [segs[0]] + segs[1..] == stack + segs;
    } else {
      assert stack + segs == stack;
    }
  }

  // ----- the documented rules, in any order -----

  /** `b` is `a` after one documented elimination: an empty element (a doubled or trailing slash),
      a ".", an inner ".." with the name before it, or a ".." at the root. */
  ghost predicate Eliminates(a: seq<string>, b: seq<string>) {
    || (exists i :: 0 <= i < |a| && (a[i] == "" || a[i] == ".") && b == a[..i] + a[i + 1..])
    || (exists i :: 0 < i < |a| && a[i] == ".." && IsName(a[i - 1]) && b == a[..i - 1] + a[i + 1..])
    || (|a| > 0 && a[0] == ".." && b == a[1..])
  }

  lemma NoiseKeepsReduce(pre: seq<string>, seg: string, post: seq<string>)
    requires seg == "" || seg == "."
    ensures Reduce([], pre + [seg] + post) == Reduce([], pre + post)
  {
    assert pre + [seg] + post == pre + ([seg] + post);
    ReduceConcat([], pre, [seg] + post);
    ReduceConcat([], pre, post);
    assert ([seg] + post)[1..] == post;
  }

  lemma ReduceStep(stack: seq<string>, seg: string, post: seq<string>)
    ensures Reduce(stack, [seg] + post) == Reduce(Push(stack, seg), post)
  {
    assert ([seg] + post)[1..] == post;
  }

  lemma PushThenPop(stack: seq<string>, name: string)
    requires IsName(name)
    ensures Push(Push(stack, name), "..") == stack
  {
    assert (stack + [name])[..|stack|] == stack;
  }

  lemma PushPopStep(stack: seq<string>, name: string, post: seq<string>)
    requires IsName(name)
    ensures Reduce(stack, [name] + ([".."] + post)) == Reduce(stack, post)
  {
    ReduceStep(stack, name, [".."] + post);
    ReduceStep(Push(stack, name), "..", post);
    PushThenPop(stack, name);
  }

  lemma Regroup(pre: seq<string>, name: string, post: seq<string>)
    ensures pre + [name, ".."] + post == pre + ([name] + ([".."] + post))
  {
  }

  lemma ParentKeepsReduce(pre: seq<string>, name: string, post: seq<string>)
    requires IsName(name)
    ensures Reduce([], pre + [name, ".."] + post) == Reduce([], pre + post)
  {
    Regroup(pre, name, post);
    ReduceConcat([], pre, [name] + ([".."] + post));
    ReduceConcat([], pre, post);
    PushPopStep(Reduce([], pre), name, post);
  }

  lemma AroundOne(a: seq<string>, i: nat)
    requires i < |a|
    ensures a[..i] + [a[i]] + a[i + 1..] == a
  {
  }

  lemma AroundTwo(a: seq<string>, i: nat)
    requires 0 < i < |a| && a[i] == ".."
    ensures a[..i - 1] + [a[i - 1], ".."] + a[i + 1..] == a
  {
  }

  lemma NoiseAt(a: seq<string>, i: nat)
    requires i < |a| && (a[i] == "" || a[i] == ".")
    ensures Reduce([], a) == Reduce([], a[..i] + a[i + 1..])
  {
    AroundOne(a, i);
    NoiseKeepsReduce(a[..i], a[i], a[i + 1..]);
  }

  lemma ParentAt(a: seq<string>, i: nat)
    requires 0 < i < |a| && a[i] == ".." && IsName(a[i - 1])
    ensures Reduce([], a) == Reduce([], a[..i - 1] + a[i + 1..])
  {
    AroundTwo(a, i);
    ParentKeepsReduce(a[..i - 1], a[i - 1], a[i + 1..]);
  }

  lemma EliminationKeepsReduce(a: seq<string>, b: seq<string>)
    requires Eliminates(a, b)
    ensures Reduce([], a) == Reduce([], b)
  {
    if i :| 0 <= i < |a| && (a[i] == "" || a[i] == ".") && b == a[..i] + a[i + 1..] {
      NoiseAt(a, i);
    } else if i :| 0 < i < |a| && a[i] == ".." && IsName(a[i - 1]) && b == a[..i - 1] + a[i + 1..] {
      ParentAt(a, i);
    }
  }

  /** Slash-free elements to which no rule applies any more are exactly lists of names. */
  lemma IrreducibleIffNames(a: seq<string>)
    requires forall i :: 0 <= i < |a| ==> SlashFree(a[i])
    ensures (forall b :: !Eliminates(a, b)) <==> AllNames(a)
  {
    if !AllNames(a) {
      var i :| 0 <= i < |a| && !IsName(a[i]) && forall j :: 0 <= j < i ==> IsName(a[j]) by { FirstNonName(a); }
      if a[i] == "" || a[i] == "." {
        assert Eliminates(a, a[..i] + a[i + 1..]);
      } else if i > 0 {
        assert Eliminates(a, a[..i - 1] + a[i + 1..]);
      } else {
        assert Eliminates(a, a[1..]);
      }
    }
  }

  lemma {:induction false} FirstNonName(a: seq<string>)
    requires !AllNames(a)
    ensures exists i :: 0 <= i < |a| && !IsName(a[i]) && forall j :: 0 <= j < i ==> IsName(a[j])
  {
    var i := 0;
    while IsName(a[i])
      invariant 0 <= i < |a|
      invariant forall j :: 0 <= j < i ==> IsName(a[j])
      decreases |a| - i
    {
      i := i + 1;
    }
  }

  /** A run of the rules: each list follows from the one before it by one elimination. */
  ghost predicate Derivation(run: seq<seq<string>>) {
    |run| >= 1 && forall i :: 0 < i < |run| ==> Eliminates(run[i - 1], run[i])
  }

  lemma DerivationTail(run: seq<seq<string>>)
    requires Derivation(run) && |run| >= 2
    requires forall i :: 0 <= i < |run[0]| ==> SlashFree(run[0][i])
    ensures Derivation(run[1..])
    ensures forall i :: 0 <= i < |run[1]| ==> SlashFree(run[1][i])
  {
    var rest := run[1..];
    forall i | 0 < i < |rest|
      ensures Eliminates(rest[i - 1], rest[i])
    {
      assert Eliminates(run[i], run[i + 1]);
    }
    assert Eliminates(run[0], run[1]);
  }

  /** However the documented rules are applied, once none applies any more the result is the
      stack's: the order does not matter. */
  lemma {:induction false} RulesAreConfluent(run: seq<seq<string>>)
    requires Derivation(run)
    requires forall i :: 0 <= i < |run[0]| ==> SlashFree(run[0][i])
    requires AllNames(run[|run| - 1])
    ensures run[|run| - 1] == Reduce([], run[0])
    decreases |run|
  {
    if |run| == 1 {
      ReduceNames([], run[0]);
    } else {
      EliminationKeepsReduce(run[0], run[1]);
      DerivationTail(run);
      RulesAreConfluent(run[1..]);
    }
  }

  /** Some run of the rules does end with names only, so the normal form exists for every path. */
  lemma {:induction false} RulesTerminate(segs: seq<string>) returns (run: seq<seq<string>>)
    requires forall i :: 0 <= i < |segs| ==> SlashFree(segs[i])
    ensures Derivation(run) && run[0] == segs && AllNames(run[|run| - 1])
    decreases |segs|
  {
    if AllNames(segs) {
      run := [segs];
    } else {
      IrreducibleIffNames(segs);
      var next :| Eliminates(segs, next);
      var rest := RulesTerminate(next);
      run := [segs] + rest;
    }
  }

  // ----- path.Clean and cleanPath -----

  predicate Rooted(p: string) {
    |p| > 0 && p[0] == '/'
  }

  predicate EndsInSlash(p: string) {
    |p| > 0 && p[|p| - 1] == '/'
  }

  /** `path.Clean` on the rooted paths that `cleanPath` hands to it. */
  function Clean(p: string): string
    requires Rooted(p)
  {
    "/" + Join(Reduce([], Split(p[1..])))
  }

  /** netXMux.go: root the path, clean it, and put a trailing slash back. */
  function CleanPath(p: string): string {
    if p == "" then "/"
    else
      var q := if p[0] != '/' then "/" + p else p;
      var np := Clean(q);
      if q[|q| - 1] == '/' && np != "/" then np + "/" else np
  }

  /** Canonical paths: rooted, every element a name, but for an empty last one (a trailing slash). */
  predicate IsCanonical(p: string) {
    Rooted(p) &&
    (p == "/" ||
     var segs := Split(p[1..]);
     var last := segs[|segs| - 1];
     AllNames(segs[..|segs| - 1]) && (IsName(last) || (last == "" && |segs| >= 2)))
  }

  lemma PlainShapeOf(rest: string, names: seq<string>)
    requires |names| >= 1 && AllNames(names)
    requires Split(rest) == names && Reduce([], names) == names && Join(names) == rest
    requires rest != "" && !EndsInSlash(rest)
    ensures var p := "/" + rest; IsCanonical(p) && !EndsInSlash(p) && CleanPath(p) == p
  {
    var p := "/" + rest;
    assert p[1..] == rest;
    assert names == names[..|names| - 1] + [names[|names| - 1]];
  }

  lemma ReduceNamesOnly(names: seq<string>)
    requires AllNames(names)
    ensures Reduce([], names) == names && Reduce([], names + [""]) == names
  {
    ReduceNames([], names);
    assert [] + names == names;
    ReduceConcat([], names, [""]);
    assert [""][1..] == [];
    assert Reduce(names, [""]) == Reduce(Push(names, ""), []) == names;
  }

  /** A list of names, joined, is a canonical path without a trailing slash. */
  lemma PlainShape(names: seq<string>)
    requires |names| >= 1 && AllNames(names)
    ensures var p := "/" + Join(names); IsCanonical(p) && !EndsInSlash(p) && CleanPath(p) == p
  {
    SplitJoin(names);
    JoinLast(names);
    ReduceNamesOnly(names);
    var last := names[|names| - 1];
    assert last[|last| - 1] in last;
    PlainShapeOf(Join(names), names);
  }

  lemma TrailingSplit(names: seq<string>)
    requires |names| >= 1 && AllNames(names)
    ensures Split(Join(names) + "/") == names + [""]
    ensures Reduce([], names + [""]) == names
  {
    JoinTrailing(names);
    SplitJoin(names + [""]);
    ReduceNamesOnly(names);
  }

  lemma SlashedShapeOf(rest: string, names: seq<string>)
    requires |names| >= 1 && AllNames(names) && rest != ""
    requires Split(rest + "/") == names + [""] && Reduce([], names + [""]) == names && Join(names) == rest
    ensures var p := "/" + rest + "/"; IsCanonical(p) && CleanPath(p) == p
  {
    var p := "/" + rest + "/";
    assert p[1..] == rest + "/";
    assert (names + [""])[..|names|] == names;
  }

  /** The same with a trailing slash. */
  lemma SlashedShape(names: seq<string>)
    requires |names| >= 1 && AllNames(names)
    ensures var p := "/" + Join(names) + "/"; IsCanonical(p) && CleanPath(p) == p
  {
    TrailingSplit(names);
    JoinLast(names);
    SlashedShapeOf(Join(names), names);
  }

  lemma BuildCanonical(names: seq<string>)
    requires |names| >= 1 && AllNames(names)
    ensures IsCanonical("/" + Join(names)) && !EndsInSlash("/" + Join(names))
    ensures CleanPath("/" + Join(names)) == "/" + Join(names)
    ensures IsCanonical("/" + Join(names) + "/")
    ensures CleanPath("/" + Join(names) + "/") == "/" + Join(names) + "/"
  {
    PlainShape(names);
    SlashedShape(names);
  }

  /** The path with a slash before it if it has none; the empty path is the root. */
  function RootOf(p: string): string {
    if Rooted(p) then p else "/" + p
  }

  lemma EmptyPathHasNoNames()
    ensures Reduce([], Split(RootOf("")[1..])) == []
  {
    assert RootOf("")[1..] == "" && Split("") == [""];
    assert Reduce([], [""]) == Reduce(Push([], ""), []) == [];
  }

  /** What cleaning a rooted path leaves, by the names the stack ends with. */
  lemma CleanFromNames(q: string, names: seq<string>)
    requires Rooted(q) && AllNames(names) && names == Reduce([], Split(q[1..]))
    ensures Clean(q) == "/" + Join(names) && (Clean(q) == "/" <==> names == [])
  {
    if names != [] {
      JoinLast(names);
    }
  }

  /** What `cleanPath` answers, by the names the stack ends with. */
  lemma CleanPathFromNames(p: string)
    ensures var names := Reduce([], Split(RootOf(p)[1..]));
            AllNames(names)
            && CleanPath(p) == if names == [] then "/"
                               else if EndsInSlash(p) then "/" + Join(names) + "/"
                               else "/" + Join(names)
  {
    var q := RootOf(p);
    var names := Reduce([], Split(q[1..]));
    ReduceKeepsNames([], Split(q[1..]));
    CleanFromNames(q, names);
    if p == "" {
      EmptyPathHasNoNames();
    } else {
      CleanPathOfRoot(p);
    }
  }

  lemma CleanPathOfRoot(p: string)
    requires p != ""
    ensures var np := Clean(RootOf(p));
            CleanPath(p) == if EndsInSlash(p) && np != "/" then np + "/" else np
  {
    var q := RootOf(p);
    assert q[|q| - 1] == p[|p| - 1];
  }

  /** The documented rules, applied in any order until none applies, decide what `cleanPath`
      answers for every path; only the trailing slash is put back. */
  lemma CleanPathFollowsTheRules(p: string, run: seq<seq<string>>)
    requires Derivation(run) && run[0] == Split(RootOf(p)[1..]) && AllNames(run[|run| - 1])
    ensures var names := run[|run| - 1];
            CleanPath(p) == if names == [] then "/"
                            else if EndsInSlash(p) then "/" + Join(names) + "/"
                            else "/" + Join(names)
  {
    RulesAreConfluent(run);
    CleanPathFromNames(p);
  }

  /** What `cleanPath` returns is always canonical, and keeps a trailing slash. */
  lemma CleanPathIsCanonical(p: string)
    ensures IsCanonical(CleanPath(p))
    ensures EndsInSlash(CleanPath(p)) <==> EndsInSlash(p) || CleanPath(p) == "/"
  {
    CleanPathFromNames(p);
    var names := Reduce([], Split(RootOf(p)[1..]));
    if names != [] {
      BuildCanonical(names);
      JoinLast(names);
    }
  }

  /** A canonical path other than "/" is a joined list of names, perhaps with a slash after it. */
  lemma CanonicalShape(p: string) returns (names: seq<string>)
    requires IsCanonical(p) && p != "/"
    ensures |names| >= 1 && AllNames(names)
    ensures p == "/" + Join(names) || p == "/" + Join(names) + "/"
  {
    var segs := Split(p[1..]);
    JoinSplit(p[1..]);
    var last := segs[|segs| - 1];
    if IsName(last) {
      names := segs;
    } else {
      names := segs[..|segs| - 1];
      JoinTrailing(names);
      assert segs == names + [""];
    }
  }

  /** `cleanPath` leaves a path alone exactly when it is canonical, so the redirect of
      `Handler` is issued for exactly the paths that are not. */
  lemma CleanPathFixesExactlyCanonical(p: string)
    ensures CleanPath(p) == p <==> IsCanonical(p)
  {
    CleanPathIsCanonical(p);
    if p == "/" {
      assert Reduce([], Split("")) == Reduce(Push([], ""), []) == [];
    } else if IsCanonical(p) {
      var names := CanonicalShape(p);
      BuildCanonical(names);
    }
  }

  /** Cleaning twice is cleaning once. */
  lemma CleanPathIdempotent(p: string)
    ensures CleanPath(CleanPath(p)) == CleanPath(p)
  {
    CleanPathIsCanonical(p);
    CleanPathFixesExactlyCanonical(CleanPath(p));
  }

  /** A canonical path never ends in two slashes. */
  lemma CanonicalHasNoDoubledEnd(p: string)
    requires IsCanonical(p) && EndsInSlash(p) && p != "/"
    ensures !EndsInSlash(p[..|p| - 1])
  {
    var names := CanonicalShape(p);
    BuildCanonical(names);
    assert p[..|p| - 1] == "/" + Join(names);
  }

  lemma CutAtSlash(p: string, n: nat)
    requires Rooted(p) && 2 <= n <= |p| && p[n - 1] == '/'
    ensures p[1..] == p[1..n - 1] + "/" + p[n..]
    ensures p[..n] == "/" + (p[1..n - 1] + "/" + "")
  {
    assert p == p[..1] + p[1..n - 1] + p[n - 1..n] + p[n..];
    assert p[..1] == "/" && p[n - 1..n] == "/";
  }

  lemma SlashedIsCanonical(a: string)
    requires AllNames(Split(a))
    ensures IsCanonical("/" + (a + "/" + ""))
  {
    var p := "/" + (a + "/" + "");
    assert p[1..] == a + "/" + "";
    SplitAround(a, "");
    assert Split("") == [""];
    assert (Split(a) + [""])[..|Split(a)|] == Split(a);
  }

  /** Cut after any of its slashes, a canonical path is canonical. */
  lemma SlashedPrefixIsCanonical(p: string, n: nat)
    requires IsCanonical(p) && 0 < n <= |p| && p[n - 1] == '/'
    ensures IsCanonical(p[..n])
  {
    if n == 1 {
      assert p[..1] == "/";
    } else {
      var a, b := p[1..n - 1], p[n..];
      CutAtSlash(p, n);
      SplitAround(a, b);
      PrefixNames(Split(a), Split(b));
      SlashedIsCanonical(a);
    }
  }

  lemma SlashedPrefixEnds(x: string, path: string)
    requires EndsInSlash(x) && x <= path
    ensures 0 < |x| <= |path| && path[|x| - 1] == '/' && path[..|x|] == x
  {
  }

  lemma PrefixNames(a: seq<string>, b: seq<string>)
    requires |b| >= 1 && AllNames((a + b)[..|a + b| - 1])
    ensures AllNames(a)
  {
    assert forall i :: 0 <= i < |a| ==> (a + b)[..|a + b| - 1][i] == a[i];
  }

  /** A canonical path that does not end in a slash stays canonical with one. */
  lemma CanonicalWithSlash(p: string)
    requires IsCanonical(p) && !EndsInSlash(p)
    ensures IsCanonical(p + "/")
  {
    var names := CanonicalShape(p);
    BuildCanonical(names);
  }

  lemma SplitAgain(s: string)
    ensures Split(s + "/") == Split(s) + [""]
    ensures Split(s + "/" + "/") == Split(s) + [""] + [""]
  {
    SplitAround(s, "");
    SplitAround(s + "/", "");
    assert Split("") == [""];
    assert s + "/" + "" == s + "/" && s + "/" + "/" + "" == s + "/" + "/";
  }

  lemma DoubledReduce(names: seq<string>)
    requires AllNames(names)
    ensures Reduce([], names + [""] + [""]) == names
  {
    ReduceNamesOnly(names);
    ReduceConcat([], names + [""], [""]);
    assert [""][1..] == [];
    assert Reduce(names, [""]) == Reduce(Push(names, ""), []) == names;
  }

  lemma DoubledShape(rest: string, names: seq<string>)
    requires |names| >= 1 && AllNames(names) && Split(rest) == names && Join(names) == rest && rest != ""
    ensures CleanPath("/" + rest + "/" + "/") == "/" + rest + "/"
  {
    var q := "/" + rest + "/" + "/";
    assert q[1..] == rest + "/" + "/";
    SplitAgain(rest);
    DoubledReduce(names);
    assert Clean(q) == "/" + rest;
  }

  /** A slash doubled at the end of a canonical path is cleaned away. */
  lemma CleanDropsDoubledSlash(p: string)
    requires IsCanonical(p) && EndsInSlash(p)
    ensures CleanPath(p + "/") == p
  {
    if p == "/" {
      var q := p + "/";
      assert q[1..] == "/";
      assert Split("/") == ["", ""];
      assert Reduce([], ["", ""]) == Reduce([], ["", ""][1..]) == [];
    } else {
      var names := CanonicalShape(p);
      BuildCanonical(names);
      SplitJoin(names);
      JoinLast(names);
      DoubledShape(Join(names), names);
      assert p == "/" + Join(names) + "/";
    }
  }
}
