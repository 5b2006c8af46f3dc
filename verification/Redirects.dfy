/** A client that follows the redirects the mux itself issues: when they end, how soon, and where. */
module Redirects {
  import opened Options
  import opened Paths
  import Text
  import opened Routes

  /** One request of the chain and its answer. */
  datatype Hop = Hop(path: string, h: Option<UriHandler>, pattern: string)

  predicate IsOwnRedirect(hop: Hop) {
    hop.h.Some? && hop.h.value.handler.MuxRedirect?
  }

  /** The hops of a client that repeats its method and follows at most `limit` redirects. */
  function Follow(t: Table, host: string, verb: string, path: string, limit: nat): seq<Hop>
    decreases limit
  {
    var a := Answer(t, host, verb, path);
    var hop := Hop(path, a.0, a.1);
    if limit > 0 && IsOwnRedirect(hop)
    then [hop] + Follow(t, host, verb, a.0.value.handler.target, limit - 1)
    else [hop]
  }

  // ----- the tables -----

  /** A history whose registrations name colon-free methods and rooted patterns, or the empty pattern,
      which panics. */
  ghost predicate Disciplined(ops: seq<Op>) {
    forall i :: 0 <= i < |ops| && ops[i].OpHandle? ==>
      ColonFree(ops[i].u.verb) && (ops[i].u.pattern == "" || Rooted(ops[i].u.pattern))
  }

  ghost predicate RootedTable(t: Table) {
    !t.hosts && TableOk(t.m) && MethodsColonFree(t.m)
    && forall k :: k in t.m && t.m[k].explicit ==> Rooted(t.m[k].h.pattern)
  }

  lemma AddRouteKeeps(m: RouteMap, u: Registration, k: string)
    requires u.pattern != "" && k in AddRoute(m, u)
    ensures AddRoute(m, u)[k].h == u || AddRoute(m, u)[k] == ImplicitEntry(u) || (k in m && AddRoute(m, u)[k] == m[k])
  {
  }

  lemma HandleKeepsRooted(t: Table, u: Registration)
    requires RootedTable(t) && ColonFree(u.verb) && (u.pattern == "" || Rooted(u.pattern))
    ensures RootedTable(Register(t, u))
  {
    RegisterKeepsTableOk(t, u);
    if !HandlePanics(t, u) {
      forall k | k in AddRoute(t.m, u)
        ensures var e := AddRoute(t.m, u)[k]; ColonFree(e.h.verb) && (e.explicit ==> Rooted(e.h.pattern))
      {
        AddRouteKeeps(t.m, u, k);
      }
    }
  }

  lemma RemoveKeepsRooted(t: Table, verb: string, pattern: string)
    requires RootedTable(t)
    ensures RootedTable(Unregister(t, verb, pattern))
  {
    UnregisterKeepsTableOk(t, verb, pattern);
  }

  /** Such a history reaches only tables of rooted patterns, and never turns host lookup on. */
  lemma {:induction false} DisciplinedRunIsRooted(ops: seq<Op>)
    requires Disciplined(ops)
    ensures RootedTable(Run(ops))
  {
    if ops != [] {
      DisciplinedRunIsRooted(ops[..|ops| - 1]);
      match ops[|ops| - 1]
      case OpHandle(u) => HandleKeepsRooted(Run(ops[..|ops| - 1]), u);
      case OpRemove(verb, pattern) => RemoveKeepsRooted(Run(ops[..|ops| - 1]), verb, pattern);
    }
  }

  /** A trap: a stored redirect of this method whose own path is canonical and ends in a slash. Its
      route's pattern is that path with the slash doubled. */
  predicate Trap(t: Table, verb: string, k: string) {
    k in t.m && !t.m[k].explicit && t.m[k].h.verb == verb
    && IsCanonical(t.m[k].h.pattern) && EndsInSlash(t.m[k].h.pattern)
  }

  // ----- one lookup -----

  /** The hop of a request whose path is looked up as it stands. */
  function LookupHop(t: Table, verb: string, path: string): Hop {
    var a := Lookup(t.m, MakeKey(verb, path));
    Hop(path, a.0, a.1)
  }

  /** The hop was answered by an explicit route of the client's own method. */
  ghost predicate ServesOwnRoute(t: Table, verb: string, hop: Hop) {
    hop.h.Some? && !IsOwnRedirect(hop)
    && hop.h.value.verb == verb && hop.h.value.pattern == hop.pattern
    && Explicit(t.m, MakeKey(verb, hop.pattern)) && t.m[MakeKey(verb, hop.pattern)].h == hop.h.value
  }

  /** The hop was answered by a stored redirect of the client's own method: it is sent to the pattern
      of that redirect's route, which is the redirect's own path with a slash after it. */
  ghost predicate StoredRedirect(t: Table, verb: string, hop: Hop) {
    hop.h.Some?
    && var h := hop.h.value; var k := MakeKey(verb, h.pattern);
    h.verb == verb && k in t.m && t.m[k].h == h && ImplicitOk(t.m, k, t.m[k])
    && hop.pattern == h.pattern + "/" && h.handler == MuxRedirect(hop.pattern)
  }

  /** What the longest match of a request's key says of the entry there. */
  lemma BestEntry(t: Table, verb: string, path: string) returns (k: string)
    requires RootedTable(t) && ColonFree(verb) && BestKey(t.m, MakeKey(verb, path)).Some?
    ensures k in t.m && LookupHop(t, verb, path) == Hop(path, Some(t.m[k].h), t.m[k].pattern)
    ensures var x := t.m[k].h.pattern;
            t.m[k].h.verb == verb && k == MakeKey(verb, x) && (x == path || (EndsInSlash(x) && x <= path))
  {
    var full := MakeKey(verb, path);
    k := BestKey(t.m, full).value;
    BestKeyIsTheLongestMatch(t.m, full, k);
    MatchIsPrefix(k, full);
    var x := t.m[k].h.pattern;
    KeyPrefix(t.m[k].h.verb, x, verb, path);
    if EndsInSlash(k) {
      assert x != "" && x[|x| - 1] == k[|k| - 1];
    } else {
      assert k == full;
      assert x == path;
    }
  }

  lemma ImplicitIsStored(t: Table, k: string, path: string)
    requires RootedTable(t) && k in t.m && !t.m[k].explicit
    ensures var e := t.m[k]; StoredRedirect(t, e.h.verb, Hop(path, Some(e.h), e.pattern))
  {
    var e := t.m[k];
    assert ImplicitOk(t.m, k, e);
    assert Rooted(e.pattern);
  }

  /** A lookup answers with nothing, with an explicit route of the client's method, or with a redirect
      stored for this very path or for a slash-ended prefix of it. */
  lemma LookupKinds(t: Table, verb: string, path: string)
    requires RootedTable(t) && ColonFree(verb)
    ensures var hop := LookupHop(t, verb, path);
            hop.h == None || ServesOwnRoute(t, verb, hop)
            || (StoredRedirect(t, verb, hop)
                && var x := hop.h.value.pattern; x == path || (EndsInSlash(x) && x <= path))
  {
    if BestKey(t.m, MakeKey(verb, path)).Some? {
      var k := BestEntry(t, verb, path);
      if t.m[k].explicit {
        assert ExplicitOk(k, t.m[k]);
      } else {
        ImplicitIsStored(t, k, path);
      }
    }
  }

  /** Where a stored redirect leads: to the explicit entry of the route with the slash. */
  lemma StoredRedirectLeadsHome(t: Table, verb: string, hop: Hop)
    requires RootedTable(t) && ColonFree(verb) && StoredRedirect(t, verb, hop)
    ensures var next := LookupHop(t, verb, hop.pattern);
            ServesOwnRoute(t, verb, next) && next.pattern == hop.pattern
  {
    var k := MakeKey(verb, hop.h.value.pattern);
    var slashed := MakeKey(verb, hop.pattern);
    assert slashed == k + "/";
    KeyMatchesItself(t.m, slashed);
    assert ExplicitOk(slashed, t.m[slashed]);
  }

  // ----- chains that end -----

  /** How a chain must end, and what every hop of it reports. */
  ghost predicate EndsWell(t: Table, verb: string, hops: seq<Hop>, most: nat) {
    1 <= |hops| <= most
    && var last := hops[|hops| - 1];
    (last.h == None || ServesOwnRoute(t, verb, last)) && !IsOwnRedirect(last)
    && (forall i :: 0 <= i < |hops| ==> hops[i].pattern == last.pattern)
    && (forall i :: 0 <= i < |hops| - 1 ==> IsOwnRedirect(hops[i]))
  }

  lemma OneHopEndsWell(t: Table, verb: string, hop: Hop)
    requires hop.h == None || ServesOwnRoute(t, verb, hop)
    ensures EndsWell(t, verb, [hop], 1)
  {
  }

  lemma PrependRedirect(t: Table, verb: string, first: Hop, rest: seq<Hop>, most: nat)
    requires EndsWell(t, verb, rest, most) && IsOwnRedirect(first) && first.pattern == rest[0].pattern
    ensures EndsWell(t, verb, [first] + rest, most + 1)
  {
  }

  /** Without traps, a redirect stored for a canonical path leads to a canonical path. */
  lemma NoTrapTarget(t: Table, verb: string, path: string)
    requires RootedTable(t) && ColonFree(verb) && IsCanonical(path) && forall k :: !Trap(t, verb, k)
    requires StoredRedirect(t, verb, LookupHop(t, verb, path))
    ensures IsCanonical(LookupHop(t, verb, path).pattern)
  {
    var hop := LookupHop(t, verb, path);
    LookupKinds(t, verb, path);
    assert !ServesOwnRoute(t, verb, hop);
    var x := hop.h.value.pattern;
    if x != path {
      SlashedPrefixEnds(x, path);
      SlashedPrefixIsCanonical(path, |x|);
    }
    assert !Trap(t, verb, MakeKey(verb, x));
    CanonicalWithSlash(x);
  }

  /** From a path that is not cleaned any further there is at most one redirect, for CONNECT always
      and for other methods when there is no trap. */
  lemma SettledChain(t: Table, host: string, verb: string, path: string, limit: nat)
    requires RootedTable(t) && ColonFree(verb) && limit >= 1
    requires verb == "CONNECT" || (IsCanonical(path) && forall k :: !Trap(t, verb, k))
    ensures EndsWell(t, verb, Follow(t, host, verb, path, limit), 2)
    ensures Follow(t, host, verb, path, limit)[0].pattern == LookupHop(t, verb, path).pattern
  {
    var hop := LookupHop(t, verb, path);
    LookupKinds(t, verb, path);
    CleanPathFixesExactlyCanonical(path);
    assert Answer(t, host, verb, path) == (hop.h, hop.pattern);
    if StoredRedirect(t, verb, hop) {
      if verb != "CONNECT" {
        NoTrapTarget(t, verb, path);
      }
      LastHop(t, host, verb, hop, limit - 1);
      var next := LookupHop(t, verb, hop.pattern);
      OneHopEndsWell(t, verb, next);
      PrependRedirect(t, verb, hop, [next], 1);
      assert Follow(t, host, verb, path, limit) == [hop] + [next];
    } else {
      OneHopEndsWell(t, verb, hop);
      assert Follow(t, host, verb, path, limit) == [hop];
    }
  }

  lemma LastHop(t: Table, host: string, verb: string, hop: Hop, limit: nat)
    requires RootedTable(t) && ColonFree(verb) && StoredRedirect(t, verb, hop)
    requires verb == "CONNECT" || IsCanonical(hop.pattern)
    ensures var next := LookupHop(t, verb, hop.pattern);
            Follow(t, host, verb, hop.pattern, limit) == [next]
            && ServesOwnRoute(t, verb, next) && next.pattern == hop.pattern
  {
    var next := LookupHop(t, verb, hop.pattern);
    StoredRedirectLeadsHome(t, verb, hop);
    CleanPathFixesExactlyCanonical(hop.pattern);
    assert Answer(t, host, verb, hop.pattern) == (next.h, next.pattern);
  }

  /** A path that is cleaned costs one redirect more. */
  lemma CleaningChain(t: Table, host: string, verb: string, path: string, limit: nat)
    requires RootedTable(t) && ColonFree(verb) && limit >= 2
    requires verb != "CONNECT" && !IsCanonical(path) && forall k :: !Trap(t, verb, k)
    ensures EndsWell(t, verb, Follow(t, host, verb, path, limit), 3)
  {
    var p := CleanPath(path);
    CleanPathFixesExactlyCanonical(path);
    CleanPathIsCanonical(path);
    SettledChain(t, host, verb, p, limit - 1);
    var pattern := LookupHop(t, verb, p).pattern;
    var first := Hop(path, Some(UriHandler(verb, MuxRedirect(p), pattern, 0)), pattern);
    assert Answer(t, host, verb, path) == (first.h, first.pattern);
    var rest := Follow(t, host, verb, p, limit - 1);
    assert Follow(t, host, verb, path, limit) == [first] + rest;
    PrependRedirect(t, verb, first, rest, 2);
  }

  /** Without traps every chain ends, after at most two redirects, or one for CONNECT. */
  lemma NoTrapEnds(t: Table, host: string, verb: string, path: string, limit: nat)
    requires RootedTable(t) && ColonFree(verb) && limit >= 2
    requires verb == "CONNECT" || forall k :: !Trap(t, verb, k)
    ensures EndsWell(t, verb, Follow(t, host, verb, path, limit), if verb == "CONNECT" then 2 else 3)
  {
    if verb == "CONNECT" || IsCanonical(path) {
      SettledChain(t, host, verb, path, limit);
    } else {
      CleaningChain(t, host, verb, path, limit);
    }
  }

  // ----- chains that do not -----

  /** At a trap the client goes round and round: the stored redirect sends it to the doubled slash,
      and that path is cleaned back to the trap's. */
  lemma {:induction false} TrapLoopsForever(t: Table, verb: string, k: string, host: string, limit: nat)
    requires RootedTable(t) && ColonFree(verb) && verb != "CONNECT" && Trap(t, verb, k)
    ensures var x := t.m[k].h.pattern;
            |Follow(t, host, verb, x, limit)| == limit + 1 && |Follow(t, host, verb, x + "/", limit)| == limit + 1
    decreases limit
  {
    var x := t.m[k].h.pattern;
    TrapAnswers(t, verb, k, host);
    if limit > 0 {
      TrapLoopsForever(t, verb, k, host, limit - 1);
    }
  }

  lemma TrapAnswers(t: Table, verb: string, k: string, host: string)
    requires RootedTable(t) && ColonFree(verb) && verb != "CONNECT" && Trap(t, verb, k)
    ensures var x := t.m[k].h.pattern;
            var there, back := Answer(t, host, verb, x).0, Answer(t, host, verb, x + "/").0;
            there.Some? && there.value.handler == MuxRedirect(x + "/")
            && back.Some? && back.value.handler == MuxRedirect(x)
  {
    var x := t.m[k].h.pattern;
    ImplicitIsStored(t, k, x);
    KeyMatchesItself(t.m, k);
    CleanPathFixesExactlyCanonical(x);
    CleanDropsDoubledSlash(x);
    assert x + "/" != x;
  }

  /** Every chain of a method other than CONNECT ends after at most two redirects, at an explicit route
      of that method or with not-found and with one pattern reported throughout, exactly when the
      table holds no trap for it; with a trap there are chains of every length. */
  lemma RedirectsEndExactlyWhen(t: Table, host: string, verb: string)
    requires RootedTable(t) && ColonFree(verb) && verb != "CONNECT"
    ensures (forall path, limit: nat :: limit >= 2 ==> EndsWell(t, verb, Follow(t, host, verb, path, limit), 3))
            <==> (forall k :: !Trap(t, verb, k))
    ensures (forall path, limit: nat :: limit >= 2 ==> |Follow(t, host, verb, path, limit)| <= 3)
            <==> (forall k :: !Trap(t, verb, k))
  {
    if k :| Trap(t, verb, k) {
      var x := t.m[k].h.pattern;
      TrapLoopsForever(t, verb, k, host, 3);
      assert |Follow(t, host, verb, x, 3)| == 4;
    } else {
      forall path, limit: nat | limit >= 2
        ensures EndsWell(t, verb, Follow(t, host, verb, path, limit), 3)
      {
        NoTrapEnds(t, host, verb, path, limit);
      }
    }
  }

  // ----- what registrations decide -----

  /** A pattern that doubles the last slash of a canonical path. */
  predicate DoublesItsSlash(pattern: string) {
    |pattern| > 0 && EndsInSlash(pattern)
    && EndsInSlash(pattern[..|pattern| - 1]) && IsCanonical(pattern[..|pattern| - 1])
  }

  /** The traps are the redirects of routes with such patterns. */
  lemma TrapsComeFromDoubledSlashes(t: Table, verb: string, k: string)
    requires RootedTable(t) && Trap(t, verb, k)
    ensures Explicit(t.m, k + "/") && t.m[k + "/"].h.verb == verb && DoublesItsSlash(t.m[k + "/"].h.pattern)
  {
    assert ImplicitOk(t.m, k, t.m[k]);
    var pattern := t.m[k + "/"].h.pattern;
    assert pattern[..|pattern| - 1] == t.m[k].h.pattern;
  }

  /** No registration of the history for this method doubles its slash. */
  ghost predicate NoDoubledSlash(ops: seq<Op>, verb: string) {
    forall i :: 0 <= i < |ops| && ops[i].OpHandle? && ops[i].u.verb == verb ==> !DoublesItsSlash(ops[i].u.pattern)
  }

  lemma {:induction false} RoutesComeFromRegistrations(ops: seq<Op>, verb: string, k: string)
    requires NoDoubledSlash(ops, verb) && Explicit(Run(ops).m, k) && Run(ops).m[k].h.verb == verb
    ensures !DoublesItsSlash(Run(ops).m[k].h.pattern)
  {
    var init, op := ops[..|ops| - 1], ops[|ops| - 1];
    assert op.OpHandle? && op.u.verb == verb ==> !DoublesItsSlash(op.u.pattern);
    if Explicit(Run(init).m, k) && Run(init).m[k] == Run(ops).m[k] {
      RoutesComeFromRegistrations(init, verb, k);
    }
  }

  /** Whatever path is asked for, the mux's own redirects lead to an explicit route of the client's
      method or to not-found after at most two of them (one for CONNECT, whose paths are not
      cleaned), and every hop reports the pattern of the last. No pattern needs to be canonical; none
      may double the last slash of a canonical path. */
  lemma RedirectsEnd(ops: seq<Op>, host: string, verb: string, path: string, limit: nat)
    requires Disciplined(ops) && NoDoubledSlash(ops, verb) && ColonFree(verb) && limit >= 2
    ensures EndsWell(Run(ops), verb, Follow(Run(ops), host, verb, path, limit), if verb == "CONNECT" then 2 else 3)
  {
    var t := Run(ops);
    DisciplinedRunIsRooted(ops);
    forall k
      ensures !Trap(t, verb, k)
    {
      if Trap(t, verb, k) {
        TrapsComeFromDoubledSlashes(t, verb, k);
        RoutesComeFromRegistrations(ops, verb, k + "/");
      }
    }
    NoTrapEnds(t, host, verb, path, limit);
  }

  /** A canonical pattern never doubles its last slash. */
  lemma CanonicalDoublesNothing(pattern: string)
    requires IsCanonical(pattern)
    ensures !DoublesItsSlash(pattern)
  {
    if DoublesItsSlash(pattern) {
      assert pattern != "/";
      CanonicalHasNoDoubledEnd(pattern);
    }
  }

  /** Registering a pattern that doubles its slash, whatever else is registered, sets a trap at once
      unless the slashless key is taken by an explicit route. */
  lemma DoubledSlashLoopsForever(ops: seq<Op>, u: Registration, host: string, limit: nat)
    requires Disciplined(ops) && ColonFree(u.verb) && u.verb != "CONNECT"
    requires DoublesItsSlash(u.pattern) && !HandlePanics(Run(ops), u)
    requires !Explicit(Run(ops).m, ImplicitKey(u.verb, u.pattern))
    ensures |Follow(Register(Run(ops), u), host, u.verb, u.pattern[..|u.pattern| - 1], limit)| == limit + 1
  {
    var t := Register(Run(ops), u);
    DisciplinedRunIsRooted(ops);
    HandleKeepsRooted(Run(ops), u);
    var k := ImplicitKey(u.verb, u.pattern);
    assert t.m[k] == ImplicitEntry(u);
    TrapLoopsForever(t, u.verb, k, host, limit);
  }

  // ----- two redirects do happen -----

  const TREE: Registration := UriHandler("GET", App(1), "/tree/", 0)

  lemma TreeLookups(t: Table)
    requires t == Run([OpHandle(TREE)])
    ensures !t.hosts && LookupHop(t, "GET", "/tree").h == Some(ImplicitEntry(TREE).h)
  {
    FirstRoute(TREE);
    var slashless := "GET:/tree";
    assert "/tree/"[..5] == "/tree";
    assert ImplicitKey("GET", "/tree/") == slashless && MakeKey("GET", "/tree") == slashless;
    KeyMatchesItself(t.m, slashless);
  }

  lemma TwoHops(t: Table, path: string, target: string)
    requires !t.hosts && CleanPath(path) == path
    requires var hop := LookupHop(t, "GET", path); IsOwnRedirect(hop) && hop.h.value.handler.target == target
    ensures |Follow(t, "", "GET", path, 1)| == 2
  {
  }

  lemma OneMoreHop(t: Table, path: string, p: string, limit: nat)
    requires CleanPath(path) == p != path
    ensures |Follow(t, "", "GET", path, limit + 1)| == 1 + |Follow(t, "", "GET", p, limit)|
  {
  }

  /** Two redirects do happen: "//tree" goes to "/tree" and from there to "/tree/". */
  lemma TwoRedirectsHappen()
    ensures |Follow(Run([OpHandle(TREE)]), "", "GET", "//tree", 2)| == 3
  {
    var t := Run([OpHandle(TREE)]);
    TreeLookups(t);
    CleanTree();
    TwoHops(t, "/tree", "/tree/");
    OneMoreHop(t, "//tree", "/tree", 1);
  }

  lemma CleanTree()
    ensures CleanPath("//tree") == "/tree" && CleanPath("/tree") == "/tree"
  {
    var names := ["tree"];
    SplitTree();
    assert "//tree"[1..] == "/tree" && "/tree"[1..] == "tree";
    ReduceNames([], names);
    ReduceConcat([], [""], names);
    assert [""] + names == ["", "tree"];
    assert Reduce([], [""]) == [];
    assert [] + names == names;
  }

  lemma SplitTree()
    ensures Text.Split("tree") == ["tree"] && Text.Split("/tree") == ["", "tree"]
  {
    Text.SplitSlashFree("tree");
    Text.SplitAfterSlash("", "tree");
    assert "" + "/" + "tree" == "/tree";
  }
}
