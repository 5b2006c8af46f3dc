/** The route table of netXMux.go as a value: what registering, removing and looking up mean. */
module Routes {
  import opened Options
  import opened Paths
  import Text

  /** What serves a request: nothing was given, an application's handler, or a redirect of the mux. */
  datatype HttpHandler = NilHandler | App(id: int) | MuxRedirect(target: string)

  datatype UriHandler = UriHandler(verb: string, handler: HttpHandler, pattern: string, requiredAccess: int)

  /** What an application hands over: it never carries one of the mux's own redirects. */
  type Registration = u: UriHandler | !u.handler.MuxRedirect?
    witness UriHandler("GET", NilHandler, "/", 0)

  datatype MuxEntry = MuxEntry(explicit: bool, h: UriHandler, pattern: string)

  type RouteMap = map<string, MuxEntry>

  /** The mutable part of an `XMux`. */
  datatype Table = Table(m: RouteMap, hosts: bool)

  const EMPTY_TABLE := Table(map[], false)

  datatype Outcome = Done | Panic

  function MakeKey(verb: string, pattern: string): string {
    verb + ":" + pattern
  }

  /** The zero value of a missing entry is not explicit. */
  predicate Explicit(m: RouteMap, key: string) {
    key in m && m[key].explicit
  }

  // ----- registering and removing -----

  /** `Handle` panics on an empty pattern, a nil handler, and a second explicit registration. */
  predicate HandlePanics(t: Table, u: Registration) {
    u.pattern == "" || u.handler.NilHandler? || Explicit(t.m, MakeKey(u.verb, u.pattern))
  }

  /** The pattern from its first slash on. */
  function FromFirstSlash(pattern: string): string {
    if pattern == "" || pattern[0] == '/' then pattern else FromFirstSlash(pattern[1..])
  }

  /** Nothing before it holds a slash, and it begins with one if there is any. */
  lemma {:induction false} FirstSlash(pattern: string) returns (before: string)
    ensures pattern == before + FromFirstSlash(pattern) && '/' !in before
    ensures FromFirstSlash(pattern) == "" || FromFirstSlash(pattern)[0] == '/'
  {
    if pattern == "" || pattern[0] == '/' {
      before := "";
    } else {
      before := FirstSlash(pattern[1..]);
      before := [pattern[0]] + before;
    }
  }

  /** The redirect entry for the pattern without its trailing slash. */
  function ImplicitEntry(u: UriHandler): MuxEntry
    requires u.pattern != ""
  {
    MuxEntry(false,
             UriHandler(u.verb, MuxRedirect(FromFirstSlash(u.pattern)),
                        u.pattern[..|u.pattern| - 1], u.requiredAccess),
             u.pattern)
  }

  function ImplicitKey(verb: string, pattern: string): string
    requires pattern != ""
  {
    MakeKey(verb, pattern[..|pattern| - 1])
  }

  /** True iff registering `u` also installs a redirect for the pattern without its slash. */
  predicate AddsImplicit(m: RouteMap, u: UriHandler)
    requires u.pattern != ""
  {
    EndsInSlash(u.pattern) && !Explicit(m, ImplicitKey(u.verb, u.pattern))
  }

  function AddRoute(m: RouteMap, u: Registration): RouteMap
    requires u.pattern != ""
  {
    var m1 := m[MakeKey(u.verb, u.pattern) := MuxEntry(true, u, u.pattern)];
    if AddsImplicit(m, u) then m1[ImplicitKey(u.verb, u.pattern) := ImplicitEntry(u)] else m1
  }

  function Register(t: Table, u: Registration): Table {
    if HandlePanics(t, u) then t
    else Table(AddRoute(t.m, u), t.hosts || !Rooted(u.pattern))
  }

  function RemoveRoute(m: RouteMap, verb: string, pattern: string): RouteMap {
    var m1 := m - {MakeKey(verb, pattern)};
    if EndsInSlash(pattern) && !Explicit(m1, ImplicitKey(verb, pattern))
    then m1 - {ImplicitKey(verb, pattern)} else m1
  }

  function Unregister(t: Table, verb: string, pattern: string): Table {
    t.(m := RemoveRoute(t.m, verb, pattern))
  }

  // ----- the invariant of every reachable table -----

  /** An explicit entry is filed under its own handler's key and carries its own pattern. */
  predicate ExplicitOk(k: string, e: MuxEntry) {
    e.explicit && e.h.handler.App? && e.pattern == e.h.pattern && e.pattern != ""
    && k == MakeKey(e.h.verb, e.h.pattern)
  }

  /** A redirect at `k` belongs to the explicit route at `k + "/"`: same method, same required
      access, that route's pattern, and a redirect to that route's path. */
  predicate ImplicitOk(m: RouteMap, k: string, e: MuxEntry) {
    !e.explicit && k == MakeKey(e.h.verb, e.h.pattern)
    && Explicit(m, k + "/")
    && e.h.verb == m[k + "/"].h.verb
    && e.h.requiredAccess == m[k + "/"].h.requiredAccess
    && e.pattern == m[k + "/"].h.pattern == e.h.pattern + "/"
    && e.h.handler == MuxRedirect(FromFirstSlash(e.pattern))
  }

  ghost predicate TableOk(m: RouteMap) {
    forall k :: k in m ==> ExplicitOk(k, m[k]) || ImplicitOk(m, k, m[k])
  }

  lemma ImplicitKeySlash(verb: string, pattern: string)
    requires EndsInSlash(pattern)
    ensures ImplicitKey(verb, pattern) + "/" == MakeKey(verb, pattern)
    ensures pattern[..|pattern| - 1] + "/" == pattern
  {
  }

  /** Registering keeps the invariant, panics included. */
  lemma RegisterKeepsTableOk(t: Table, u: Registration)
    requires TableOk(t.m)
    ensures TableOk(Register(t, u).m)
  {
    if !HandlePanics(t, u) {
      var key := MakeKey(u.verb, u.pattern);
      var m' := AddRoute(t.m, u);
      assert ExplicitOk(key, m'[key]);
      forall k | k in m'
        ensures ExplicitOk(k, m'[k]) || ImplicitOk(m', k, m'[k])
      {
        if k != key {
          if AddsImplicit(t.m, u) && k == ImplicitKey(u.verb, u.pattern) {
            ImplicitKeySlash(u.verb, u.pattern);
          } else {
            assert k in t.m && m'[k] == t.m[k];
            if ImplicitOk(t.m, k, t.m[k]) {
              assert k + "/" != key;
              assert m'[k + "/"] == t.m[k + "/"];
            }
          }
        }
      }
    }
  }

  /** Only a pattern that ends in a slash has a key that does. */
  lemma SlashlessKey(verb: string, pattern: string, k: string)
    requires k + "/" == MakeKey(verb, pattern)
    ensures EndsInSlash(pattern) && ImplicitKey(verb, pattern) == k
  {
    var key := MakeKey(verb, pattern);
    assert key[|key| - 1] == '/';
    ImplicitKeySlash(verb, pattern);
    assert k == key[..|key| - 1] == ImplicitKey(verb, pattern);
  }

  /** Removing keeps the invariant: a redirect never outlives its route. */
  lemma UnregisterKeepsTableOk(t: Table, verb: string, pattern: string)
    requires TableOk(t.m)
    ensures TableOk(Unregister(t, verb, pattern).m)
  {
    var key := MakeKey(verb, pattern);
    var m' := RemoveRoute(t.m, verb, pattern);
    forall k | k in m'
      ensures ExplicitOk(k, m'[k]) || ImplicitOk(m', k, m'[k])
    {
      if ImplicitOk(t.m, k, t.m[k]) {
        if k + "/" == key {
          SlashlessKey(verb, pattern, k);
        }
      }
    }
  }

  // ----- runs -----

  datatype Op = OpHandle(u: Registration) | OpRemove(verb: string, pattern: string)

  function Apply(t: Table, op: Op): Table {
    match op
    case OpHandle(u) => Register(t, u)
    case OpRemove(verb, pattern) => Unregister(t, verb, pattern)
  }

  /** The table after a history of calls on a new mux, panicking ones included. */
  function Run(ops: seq<Op>): Table {
    if ops == [] then EMPTY_TABLE else Apply(Run(ops[..|ops| - 1]), ops[|ops| - 1])
  }

  /** Every reachable table satisfies the invariant. */
  lemma {:induction false} RunTableOk(ops: seq<Op>)
    ensures TableOk(Run(ops).m)
  {
    if ops != [] {
      var before := ops[..|ops| - 1];
      RunTableOk(before);
      match ops[|ops| - 1]
      case OpHandle(u) => RegisterKeepsTableOk(Run(before), u);
      case OpRemove(verb, pattern) => UnregisterKeepsTableOk(Run(before), verb, pattern);
    }
  }

  lemma UnusedSlashlessKey(m: RouteMap, verb: string, pattern: string)
    requires TableOk(m) && EndsInSlash(pattern) && MakeKey(verb, pattern) !in m
    ensures var slashless := ImplicitKey(verb, pattern);
            slashless != MakeKey(verb, pattern) && (slashless in m ==> m[slashless].explicit)
  {
    ImplicitKeySlash(verb, pattern);
    assert |ImplicitKey(verb, pattern)| < |MakeKey(verb, pattern)|;
  }

  lemma RemoveUndoesAdd(m: RouteMap, u: Registration)
    requires TableOk(m) && u.pattern != "" && !Explicit(m, MakeKey(u.verb, u.pattern))
    ensures RemoveRoute(AddRoute(m, u), u.verb, u.pattern) == m <==> MakeKey(u.verb, u.pattern) !in m
  {
    var key := MakeKey(u.verb, u.pattern);
    var back := RemoveRoute(AddRoute(m, u), u.verb, u.pattern);
    assert key !in back;
    if key !in m {
      if EndsInSlash(u.pattern) {
        UnusedSlashlessKey(m, u.verb, u.pattern);
      }
      assert back == m;
    }
  }

  /** In every reachable table, a successful `Handle` undone by `RemoveHandleFunc` restores the whole
      table exactly when the key was unused before and host lookup is not newly turned on: a redirect
      that the route replaced is lost, and the host flag is never taken back. */
  lemma HandleThenRemoveRestores(ops: seq<Op>, u: Registration)
    requires !HandlePanics(Run(ops), u)
    ensures var t := Run(ops);
            Unregister(Register(t, u), u.verb, u.pattern) == t
            <==> MakeKey(u.verb, u.pattern) !in t.m && (t.hosts || Rooted(u.pattern))
  {
    RunTableOk(ops);
    RemoveUndoesAdd(Run(ops).m, u);
  }

  // ----- looking up -----

  predicate PathMatch(pattern: string, path: string) {
    if pattern == "" then false
    else if pattern[|pattern| - 1] != '/' then pattern == path
    else |path| >= |pattern| && path[..|pattern|] == pattern
  }

  /** The key at which a scan in any order ends up: it matches and no matching key is longer. */
  ghost predicate IsLongestMatch(m: RouteMap, path: string, k: string) {
    k in m && PathMatch(k, path)
    && forall k' :: k' in m && PathMatch(k', path) ==> |k'| <= |k|
  }

  /** The reference lookup: try the prefixes of the path from the longest down. */
  function BestKeyUpTo(m: RouteMap, path: string, n: nat): Option<string>
    requires n <= |path|
  {
    if n == 0 then None
    else if path[..n] in m && PathMatch(path[..n], path) then Some(path[..n])
    else BestKeyUpTo(m, path, n - 1)
  }

  function BestKey(m: RouteMap, path: string): Option<string> {
    BestKeyUpTo(m, path, |path|)
  }

  lemma MatchIsPrefix(pattern: string, path: string)
    requires PathMatch(pattern, path)
    ensures 0 < |pattern| <= |path| && path[..|pattern|] == pattern
  {
  }

  lemma {:induction false} BestKeyUpToIsLongest(m: RouteMap, path: string, n: nat)
    requires n <= |path|
    ensures match BestKeyUpTo(m, path, n)
            case Some(k) => k in m && PathMatch(k, path)
                            && forall k' :: k' in m && PathMatch(k', path) && |k'| <= n ==> |k'| <= |k|
            case None => forall k' :: k' in m && PathMatch(k', path) ==> |k'| > n
  {
    if n > 0 {
      BestKeyUpToIsLongest(m, path, n - 1);
      forall k' | k' in m && PathMatch(k', path) && |k'| == n
        ensures k' == path[..n]
      {
        MatchIsPrefix(k', path);
      }
    }
  }

  /** Trying prefixes finds the longest match, and there is only one: two matching keys of the
      same length are the same prefix of the path. */
  lemma BestKeyIsTheLongestMatch(m: RouteMap, path: string, k: string)
    ensures BestKey(m, path) == Some(k) <==> IsLongestMatch(m, path, k)
    ensures BestKey(m, path) == None <==> forall k' :: k' in m ==> !PathMatch(k', path)
  {
    BestKeyUpToIsLongest(m, path, |path|);
    forall k' | k' in m && PathMatch(k', path)
      ensures |k'| <= |path|
    {
      MatchIsPrefix(k', path);
    }
    if IsLongestMatch(m, path, k) {
      var b := BestKey(m, path).value;
      MatchIsPrefix(b, path);
      MatchIsPrefix(k, path);
      assert b == path[..|b|] == path[..|k|] == k;
    }
  }

  /** What `match` answers: the handler and pattern of the entry at the longest match. */
  function Lookup(m: RouteMap, path: string): (Option<UriHandler>, string) {
    match BestKey(m, path)
    case None => (None, "")
    case Some(k) => if k in m then (Some(m[k].h), m[k].pattern) else (None, "")
  }

  /** What the locked lookup `handler` answers. */
  function HandlerAt(t: Table, host: string, verb: string, path: string): (Option<UriHandler>, string) {
    var byHost := if t.hosts then Lookup(t.m, host + MakeKey(verb, path)) else (None, "");
    if byHost.0 == None then Lookup(t.m, MakeKey(verb, path)) else byHost
  }

  /** What `Handler` answers: a redirect to the canonical path, or what is registered. */
  function Answer(t: Table, host: string, verb: string, path: string): (Option<UriHandler>, string) {
    var p := CleanPath(path);
    if verb != "CONNECT" && p != path then
      var pattern := HandlerAt(t, host, verb, p).1;
      (Some(UriHandler(verb, MuxRedirect(p), pattern, 0)), pattern)
    else HandlerAt(t, host, verb, path)
  }

  /** `Handler` answers with no handler at all exactly when it does not redirect to a cleaned path and
      no key matches; its own comment promises that this never happens. */
  lemma AnswerIsNilExactlyWhen(t: Table, host: string, verb: string, path: string)
    ensures Answer(t, host, verb, path).0 == None <==>
            (verb == "CONNECT" || IsCanonical(path))
            && (forall k :: k in t.m ==> !PathMatch(k, MakeKey(verb, path)))
            && (t.hosts ==> forall k :: k in t.m ==> !PathMatch(k, host + MakeKey(verb, path)))
  {
    CleanPathFixesExactlyCanonical(path);
    var full, byHost := MakeKey(verb, path), host + MakeKey(verb, path);
    LookupMisses(t.m, full);
    LookupMisses(t.m, byHost);
  }

  lemma LookupMisses(m: RouteMap, path: string)
    ensures Lookup(m, path).0 == None <==> forall k :: k in m ==> !PathMatch(k, path)
  {
    var best := BestKey(m, path);
    BestKeyIsTheLongestMatch(m, path, best.GetOr(""));
  }

  // ----- which entry answers, in terms of keys and paths alone -----

  /** A key reaches its own path and, if it ends in a slash, every path below it, at any depth. */
  ghost predicate Reaches(k: string, path: string) {
    k != "" && (k == path || (k[|k| - 1] == '/' && k <= path))
  }

  ghost predicate IsLongestReach(m: RouteMap, path: string, k: string) {
    k in m && Reaches(k, path) && forall k' :: k' in m && Reaches(k', path) ==> |k'| <= |k|
  }

  lemma PathMatchIsReach(pattern: string, path: string)
    ensures PathMatch(pattern, path) <==> Reaches(pattern, path)
  {
  }

  lemma AllPathMatches(m: RouteMap, path: string)
    ensures forall k :: k in m ==> (PathMatch(k, path) <==> Reaches(k, path))
  {
    forall k | k in m
      ensures PathMatch(k, path) <==> Reaches(k, path)
    {
      PathMatchIsReach(k, path);
    }
  }

  /** For every table and path, the lookup answers with the entry at a key exactly when that key is the
      longest of the table that reaches the path, and with nothing exactly when none does. */
  lemma LookupIsLongestReach(m: RouteMap, path: string, k: string)
    ensures BestKey(m, path) == Some(k) <==> IsLongestReach(m, path, k)
    ensures IsLongestReach(m, path, k) ==> Lookup(m, path) == (Some(m[k].h), m[k].pattern)
    ensures Lookup(m, path).0 == None <==> forall k' :: k' in m ==> !Reaches(k', path)
    ensures Lookup(m, path).0 == None ==> Lookup(m, path).1 == ""
  {
    AllPathMatches(m, path);
    BestKeyIsTheLongestMatch(m, path, k);
    LookupMisses(m, path);
  }

  /** The request is looked up as it stands: its path is not cleaned first. */
  predicate IsLookedUp(verb: string, path: string) {
    verb == "CONNECT" || IsCanonical(path)
  }

  lemma LookedUpAnswer(t: Table, host: string, verb: string, path: string)
    requires IsLookedUp(verb, path)
    ensures Answer(t, host, verb, path) == HandlerAt(t, host, verb, path)
    ensures host + MakeKey(verb, path) == host + verb + ":" + path
  {
    CleanPathFixesExactlyCanonical(path);
  }

  /** Such a request is answered with the entry at the longest key that reaches it, with the host before it
      if the mux has a host pattern and any key reaches that, and without the host otherwise. */
  lemma AnswerIsLongestReach(t: Table, host: string, verb: string, path: string, k: string)
    requires IsLookedUp(verb, path) && k in t.m
    ensures var byHost, plain := host + verb + ":" + path, verb + ":" + path;
            (if t.hosts && exists k' :: k' in t.m && Reaches(k', byHost) then IsLongestReach(t.m, byHost, k)
             else IsLongestReach(t.m, plain, k))
            ==> Answer(t, host, verb, path) == (Some(t.m[k].h), t.m[k].pattern)
  {
    LookedUpAnswer(t, host, verb, path);
    LookupIsLongestReach(t.m, host + verb + ":" + path, k);
    LookupIsLongestReach(t.m, verb + ":" + path, k);
  }

  /** A route is never missed: a request for its pattern, or for any path below a pattern that ends in a
      slash, is answered, and without host lookup by an entry whose key is no shorter than the route's. */
  lemma RouteIsNeverMissed(t: Table, host: string, verb: string, pattern: string, path: string) returns (k: string)
    requires verb + ":" + pattern in t.m && IsLookedUp(verb, path)
    requires pattern == path || (EndsInSlash(pattern) && pattern <= path)
    ensures Answer(t, host, verb, path).0.Some?
    ensures IsLongestReach(t.m, verb + ":" + path, k) && |verb + ":" + pattern| <= |k|
    ensures !t.hosts ==> Answer(t, host, verb, path) == (Some(t.m[k].h), t.m[k].pattern)
  {
    var key, full := verb + ":" + pattern, verb + ":" + path;
    assert Reaches(key, full);
    CleanPathFixesExactlyCanonical(path);
    LookupIsLongestReach(t.m, full, key);
    k := BestKey(t.m, full).value;
    LookupIsLongestReach(t.m, full, k);
  }

  /** A request that is not looked up as it stands is redirected to the cleaned path, whoever sends it: the
      redirect asks for no access level, and reports the pattern that answers there. */
  lemma CleaningRedirectIsOpen(t: Table, host: string, verb: string, path: string)
    requires !IsLookedUp(verb, path)
    ensures var to := CleanPath(path);
            var (h, pattern) := Answer(t, host, verb, path);
            h == Some(UriHandler(verb, MuxRedirect(to), pattern, 0))
            && IsLookedUp(verb, to) && pattern == Answer(t, host, verb, to).1
  {
    CleanPathFixesExactlyCanonical(path);
    CleanPathIsCanonical(path);
    CleanPathIdempotent(path);
  }

  /** A pattern that ends in a slash brings a redirect to it for the path without the slash, at the same
      access level, unless that path has an explicit route, which stays. */
  lemma SlashlessIsRedirected(t: Table, u: Registration, host: string)
    requires !HandlePanics(t, u) && EndsInSlash(u.pattern)
    ensures var x, m' := u.pattern[..|u.pattern| - 1], Register(t, u).m;
            var k := u.verb + ":" + x;
            var r := UriHandler(u.verb, MuxRedirect(FromFirstSlash(u.pattern)), x, u.requiredAccess);
            k in m' && (if Explicit(t.m, k) then m'[k] == t.m[k]
                        else m'[k] == MuxEntry(false, r, u.pattern)
                             && (!Register(t, u).hosts && IsLookedUp(u.verb, x) ==>
                                   Answer(Register(t, u), host, u.verb, x) == (Some(r), u.pattern)))
  {
    var x := u.pattern[..|u.pattern| - 1];
    var k := u.verb + ":" + x;
    assert k == MakeKey(u.verb, x) == ImplicitKey(u.verb, u.pattern);
    assert |k| < |MakeKey(u.verb, u.pattern)|;
    var t' := Register(t, u);
    KeyMatchesItself(t'.m, k);
    LookupIsLongestReach(t'.m, k, k);
    if !t'.hosts && IsLookedUp(u.verb, x) {
      AnswerIsLongestReach(t', host, u.verb, x, k);
    }
  }

  /** What a removal takes away: the key, present or not, and the redirect stored for it without its
      slash. */
  predicate IsRemoved(m: RouteMap, verb: string, pattern: string, k: string) {
    k == verb + ":" + pattern || (k in m && !m[k].explicit && k + "/" == verb + ":" + pattern)
  }

  /** It takes away that and nothing else, so that every path whose answer was not removed is answered as
      before, and every other path by the longest of the remaining keys that reaches it. */
  lemma RemovalChangesOnlyItsPaths(t: Table, verb: string, pattern: string, path: string)
    ensures var m' := Unregister(t, verb, pattern).m;
            m' == (map k | k in t.m && !IsRemoved(t.m, verb, pattern, k) :: t.m[k])
            && Unregister(t, verb, pattern).hosts == t.hosts
            && (forall k :: IsLongestReach(t.m, path, k) && !IsRemoved(t.m, verb, pattern, k) ==>
                  BestKey(m', path) == Some(k) && Lookup(m', path) == Lookup(t.m, path))
  {
    var m' := Unregister(t, verb, pattern).m;
    RemovedKeys(t.m, verb, pattern);
    forall k | IsLongestReach(t.m, path, k) && !IsRemoved(t.m, verb, pattern, k)
      ensures BestKey(m', path) == Some(k) && Lookup(m', path) == Lookup(t.m, path)
    {
      LookupIsLongestReach(t.m, path, k);
      LookupIsLongestReach(m', path, k);
    }
  }

  lemma RemovedKeys(m: RouteMap, verb: string, pattern: string)
    ensures RemoveRoute(m, verb, pattern) == map k | k in m && !IsRemoved(m, verb, pattern, k) :: m[k]
  {
    forall k | k in m
      ensures k in RemoveRoute(m, verb, pattern) <==> !IsRemoved(m, verb, pattern, k)
    {
      if k + "/" == MakeKey(verb, pattern) {
        SlashlessKey(verb, pattern, k);
      } else if EndsInSlash(pattern) {
        ImplicitKeySlash(verb, pattern);
      }
    }
  }

  /** A new route changes the answer only where its own key, or the redirect key it brought, is
      now the longest match; everywhere else handler, required access and pattern stay. */
  lemma NewRouteChangesOnlyItsPaths(t: Table, u: Registration, path: string)
    requires !HandlePanics(t, u)
    ensures var m' := Register(t, u).m;
            var key := MakeKey(u.verb, u.pattern);
            if BestKey(m', path) == Some(key) then Lookup(m', path) == (Some(u), u.pattern)
            else if AddsImplicit(t.m, u) && BestKey(m', path) == Some(ImplicitKey(u.verb, u.pattern))
            then Lookup(m', path) == (Some(ImplicitEntry(u).h), u.pattern)
            else BestKey(m', path) == BestKey(t.m, path) && Lookup(m', path) == Lookup(t.m, path)
  {
    var m' := Register(t, u).m;
    var key := MakeKey(u.verb, u.pattern);
    var best := BestKey(m', path);
    BestKeyIsTheLongestMatch(m', path, "");
    BestKeyIsTheLongestMatch(t.m, path, "");
    if best.Some? {
      BestKeyIsTheLongestMatch(m', path, best.value);
      if best.value == key {
      } else if AddsImplicit(t.m, u) && best.value == ImplicitKey(u.verb, u.pattern) {
      } else {
        assert best.value in t.m;
        assert forall k :: k in t.m ==> k in m';
        assert IsLongestMatch(t.m, path, best.value);
        BestKeyIsTheLongestMatch(t.m, path, best.value);
      }
    } else {
      assert forall k :: k in t.m ==> k in m';
    }
  }

  // ----- methods do not leak into each other -----

  predicate ColonFree(verb: string) {
    ':' !in verb
  }

  /** Two keys that agree as far as the shorter one reaches agree on colon-free methods. */
  lemma KeyPrefix(m1: string, p1: string, m2: string, p2: string)
    requires ColonFree(m1) && ColonFree(m2)
    requires |MakeKey(m1, p1)| <= |MakeKey(m2, p2)|
    requires MakeKey(m2, p2)[..|MakeKey(m1, p1)|] == MakeKey(m1, p1)
    ensures m1 == m2 && |p1| <= |p2| && p2[..|p1|] == p1
  {
    var k1, k2 := MakeKey(m1, p1), MakeKey(m2, p2);
    assert k1[|m1|] == ':' && k2[|m2|] == ':';
    assert forall i :: 0 <= i < |k1| ==> k1[i] == k2[i];
    assert |m1| == |m2|;
    assert m1 == k1[..|m1|] == k2[..|m2|] == m2;
    assert p1 == k1[|m1| + 1..];
    assert forall i :: 0 <= i < |p1| ==> p1[i] == k1[|m1| + 1 + i] == k2[|m2| + 1 + i] == p2[i];
  }

  /** The methods of all routes. */
  ghost predicate MethodsColonFree(m: RouteMap) {
    forall k :: k in m ==> ColonFree(m[k].h.verb)
  }

  /** Every registration of the history names a colon-free method. */
  ghost predicate RegistersColonFree(ops: seq<Op>) {
    forall i :: 0 <= i < |ops| && ops[i].OpHandle? ==> ColonFree(ops[i].u.verb)
  }

  lemma {:induction false} RunMethodsColonFree(ops: seq<Op>)
    requires RegistersColonFree(ops)
    ensures MethodsColonFree(Run(ops).m)
  {
    if ops != [] {
      RunMethodsColonFree(ops[..|ops| - 1]);
      assert ops[|ops| - 1].OpHandle? ==> ColonFree(ops[|ops| - 1].u.verb);
    }
  }

  /** With colon-free methods a lookup answers only with a handler registered for the request's own
      method, whose pattern is the path or a slash-ended prefix of it. */
  lemma LookupRespectsMethod(ops: seq<Op>, verb: string, path: string)
    requires RegistersColonFree(ops) && ColonFree(verb)
    ensures match Lookup(Run(ops).m, MakeKey(verb, path)).0
            case None => true
            case Some(h) =>
              h.verb == verb && (h.pattern == path || (EndsInSlash(h.pattern) && h.pattern <= path))
  {
    var m := Run(ops).m;
    RunTableOk(ops);
    RunMethodsColonFree(ops);
    var full := MakeKey(verb, path);
    var best := BestKey(m, full);
    if best.Some? {
      var k := best.value;
      BestKeyIsTheLongestMatch(m, full, k);
      MatchIsPrefix(k, full);
      var h := m[k].h;
      assert k == MakeKey(h.verb, h.pattern);
      KeyPrefix(h.verb, h.pattern, verb, path);
      if k[|k| - 1] == '/' {
        assert h.pattern != "";
      } else {
        assert |h.pattern| == |path|;
        assert path[..|path|] == path;
      }
    }
  }

  // ----- which routes answer a method that is not theirs -----

  /** The text before its first colon. */
  function BeforeColon(s: string): (r: string)
    requires !ColonFree(s)
    ensures ColonFree(r) && |r| < |s| && s[|r|] == ':' && s[..|r|] == r
  {
    if s[0] == ':' then "" else [s[0]] + BeforeColon(s[1..])
  }

  /** The text after its first colon. */
  function AfterColon(s: string): string
    requires !ColonFree(s)
  {
    s[|BeforeColon(s)| + 1..]
  }

  lemma AtFirstColon(verb: string, rest: string)
    requires ColonFree(verb)
    ensures var s := verb + ":" + rest; !ColonFree(s) && BeforeColon(s) == verb && AfterColon(s) == rest
  {
    var s := verb + ":" + rest;
    assert s[|verb|] == ':';
    var b := BeforeColon(s);
    assert forall i :: 0 <= i < |verb| ==> s[i] == verb[i] != ':';
    assert forall i :: 0 <= i < |b| ==> s[i] == b[i] != ':';
    assert |b| == |verb|;
    assert b == s[..|verb|] == verb;
  }

  /** The route filed under `key` answers this request of another, colon-free method. */
  ghost predicate AnswersOther(t: Table, key: string, host: string, verb: string, path: string) {
    key in t.m && ColonFree(verb) && verb != t.m[key].h.verb
    && Answer(t, host, verb, path) == (Some(t.m[key].h), t.m[key].pattern)
  }

  /** What a request must ask for to reach, by its first method, a route whose method holds a colon. */
  function LeakedPath(verb: string, pattern: string): string
    requires !ColonFree(verb)
  {
    AfterColon(verb) + ":" + pattern
  }

  /** The route's method holds a colon, and the mux looks such a path up as it stands. */
  predicate CanLeak(verb: string, pattern: string) {
    !ColonFree(verb) && (BeforeColon(verb) == "CONNECT" || IsCanonical(LeakedPath(verb, pattern)))
  }

  lemma LeakedKey(verb: string, pattern: string)
    requires !ColonFree(verb)
    ensures MakeKey(verb, pattern) == MakeKey(BeforeColon(verb), LeakedPath(verb, pattern))
  {
    var b := BeforeColon(verb);
    assert verb == b + ":" + AfterColon(verb);
  }

  /** An explicit key is the longest match of itself. */
  lemma KeyMatchesItself(m: RouteMap, key: string)
    requires key in m && key != ""
    ensures BestKey(m, key) == Some(key)
  {
    assert key[..|key|] == key;
    forall k | k in m && PathMatch(k, key)
      ensures |k| <= |key|
    {
      MatchIsPrefix(k, key);
    }
    BestKeyIsTheLongestMatch(m, key, key);
  }

  /** An explicit route without host lookup answers only what its own key matches, and then the mux has
      not asked for a cleaned path. */
  lemma AnswerOfExplicit(t: Table, key: string, host: string, verb: string, path: string)
    requires TableOk(t.m) && !t.hosts && Explicit(t.m, key)
    requires Answer(t, host, verb, path) == (Some(t.m[key].h), t.m[key].pattern)
    ensures PathMatch(key, MakeKey(verb, path)) && (verb == "CONNECT" || IsCanonical(path))
  {
    CleanPathFixesExactlyCanonical(path);
    assert ExplicitOk(key, t.m[key]);
    var full := MakeKey(verb, path);
    var k := BestKey(t.m, full).value;
    BestKeyIsTheLongestMatch(t.m, full, k);
    if t.m[k].explicit {
      assert ExplicitOk(k, t.m[k]);
    }
  }

  /** Cut at its first colon, a key matches a request only if what comes before is the request's method,
      and what comes after is its path or a slash-ended prefix of it. */
  lemma MatchedPath(v: string, q: string, verb: string, path: string)
    requires ColonFree(v) && ColonFree(verb) && PathMatch(MakeKey(v, q), MakeKey(verb, path))
    ensures v == verb && (q == path || (EndsInSlash(q) && q <= path))
  {
    var key, full := MakeKey(v, q), MakeKey(verb, path);
    MatchIsPrefix(key, full);
    KeyPrefix(v, q, verb, path);
    if EndsInSlash(key) {
      assert q != "" && q[|q| - 1] == key[|key| - 1];
    } else {
      assert q == path[..|path|] == path;
    }
  }

  lemma LeakIsCanonical(t: Table, key: string, host: string, verb: string, path: string)
    requires TableOk(t.m) && !t.hosts && Explicit(t.m, key) && AnswersOther(t, key, host, verb, path)
    ensures CanLeak(t.m[key].h.verb, t.m[key].h.pattern)
  {
    var h := t.m[key].h;
    assert ExplicitOk(key, t.m[key]);
    AnswerOfExplicit(t, key, host, verb, path);
    if ColonFree(h.verb) {
      MatchedPath(h.verb, h.pattern, verb, path);
    } else {
      var q := LeakedPath(h.verb, h.pattern);
      LeakedKey(h.verb, h.pattern);
      MatchedPath(BeforeColon(h.verb), q, verb, path);
      if verb != "CONNECT" && q != path {
        SlashedPrefixEnds(q, path);
        SlashedPrefixIsCanonical(path, |q|);
      }
    }
  }

  lemma LeakedPathIsAnswered(t: Table, key: string, host: string)
    requires TableOk(t.m) && !t.hosts && Explicit(t.m, key) && CanLeak(t.m[key].h.verb, t.m[key].h.pattern)
    ensures var h := t.m[key].h; AnswersOther(t, key, host, BeforeColon(h.verb), LeakedPath(h.verb, h.pattern))
  {
    var h := t.m[key].h;
    assert ExplicitOk(key, t.m[key]);
    LeakedKey(h.verb, h.pattern);
    KeyMatchesItself(t.m, key);
    CleanPathFixesExactlyCanonical(LeakedPath(h.verb, h.pattern));
  }

  /** Without host lookup, whatever the other routes: an explicit route answers some request of another
      method exactly when its own method holds a colon and the rest of the method, with the pattern, is
      a path that requests are answered for. So a route with a colon-free method never does. */
  lemma RouteLeaksExactlyWhen(t: Table, key: string, host: string)
    requires TableOk(t.m) && !t.hosts && Explicit(t.m, key)
    ensures (exists verb, path :: AnswersOther(t, key, host, verb, path))
            <==> CanLeak(t.m[key].h.verb, t.m[key].h.pattern)
  {
    if CanLeak(t.m[key].h.verb, t.m[key].h.pattern) {
      LeakedPathIsAnswered(t, key, host);
    } else if verb, path :| AnswersOther(t, key, host, verb, path) {
      LeakIsCanonical(t, key, host, verb, path);
    }
  }

  /** With host lookup on it need not hold a colon: the host runs into the method, so that a route whose
      pattern is canonical answers the host of its first letter with the method of the others. */
  lemma HostRunsIntoMethod(t: Table, key: string)
    requires TableOk(t.m) && t.hosts && Explicit(t.m, key)
    requires var h := t.m[key].h; ColonFree(h.verb) && h.verb != "" && IsCanonical(h.pattern)
    ensures var verb := t.m[key].h.verb; AnswersOther(t, key, verb[..1], verb[1..], t.m[key].h.pattern)
  {
    var h := t.m[key].h;
    assert ExplicitOk(key, t.m[key]);
    assert h.verb[..1] + MakeKey(h.verb[1..], h.pattern) == key;
    KeyMatchesItself(t.m, key);
    CleanPathFixesExactlyCanonical(h.pattern);
  }

  /** Of one registration on a new mux. */
  lemma RegistrationLeaksExactlyWhen(u: Registration, host: string)
    requires u.handler.App? && Rooted(u.pattern)
    ensures (exists verb, path :: AnswersOther(Run([OpHandle(u)]), MakeKey(u.verb, u.pattern), host, verb, path))
            <==> CanLeak(u.verb, u.pattern)
  {
    FirstRoute(u);
    RunTableOk([OpHandle(u)]);
    RouteLeaksExactlyWhen(Run([OpHandle(u)]), MakeKey(u.verb, u.pattern), host);
  }

  lemma FirstRoute(u: Registration)
    requires u.handler.App? && u.pattern != ""
    ensures var t := Run([OpHandle(u)]);
            t == Table(AddRoute(map[], u), !Rooted(u.pattern))
            && t.m[MakeKey(u.verb, u.pattern)] == MuxEntry(true, u, u.pattern)
  {
    assert [OpHandle(u)][..0] == [];
    assert Run([]) == EMPTY_TABLE;
    if AddsImplicit(map[], u) {
      assert |ImplicitKey(u.verb, u.pattern)| < |MakeKey(u.verb, u.pattern)|;
    }
  }

  lemma NoPathAfterTheColon()
    ensures !CanLeak("GET:a", "/")
  {
    assert "GET:a" == "GET" + ":" + "a";
    AtFirstColon("GET", "a");
    assert LeakedPath("GET:a", "/")[0] == 'a';
  }

  lemma HarmlessRegistration(u: Registration, host: string, verb: string, path: string)
    requires u.handler.App? && Rooted(u.pattern) && !CanLeak(u.verb, u.pattern) && ColonFree(verb) && verb != u.verb
    ensures Answer(Run([OpHandle(u)]), host, verb, path) != (Some(u), u.pattern)
  {
    FirstRoute(u);
    RegistrationLeaksExactlyWhen(u, host);
    assert !AnswersOther(Run([OpHandle(u)]), MakeKey(u.verb, u.pattern), host, verb, path);
  }

  /** A colon alone does not make a route leak: what follows this one is no path. */
  lemma ColonInMethodMayBeHarmless(host: string, verb: string, path: string)
    requires ColonFree(verb)
    ensures var u := UriHandler("GET:a", App(1), "/", 0); Answer(Run([OpHandle(u)]), host, verb, path) != (Some(u), "/")
  {
    NoPathAfterTheColon();
    assert "GET:a"[3] == ':';
    HarmlessRegistration(UriHandler("GET:a", App(1), "/", 0), host, verb, path);
  }

  lemma LongestOfOne(u: Registration, full: string)
    requires u.handler.App? && u.pattern != "" && PathMatch(MakeKey(u.verb, u.pattern), full)
    ensures Lookup(Run([OpHandle(u)]).m, full) == (Some(u), u.pattern)
  {
    FirstRoute(u);
    var m, key := Run([OpHandle(u)]).m, MakeKey(u.verb, u.pattern);
    assert forall k :: k in m ==> |k| <= |key|;
    BestKeyIsTheLongestMatch(m, full, key);
  }

  /** Seen from outside: a GET for the canonical path "/a:/x" is served by this route of another
      method, with no redirect between. */
  lemma ColonInMethodLeaks(host: string)
    ensures var u := UriHandler("GET:/a", App(1), "/", 0);
            Answer(Run([OpHandle(u)]), host, "GET", "/a:/x") == (Some(u), "/")
  {
    var u: Registration := UriHandler("GET:/a", App(1), "/", 0);
    FirstRoute(u);
    var full := MakeKey("GET", "/a:/x");
    assert PathMatch(MakeKey("GET:/a", "/"), full) by {
      assert MakeKey("GET:/a", "/") == "GET:/a:/" && full == "GET:/a:/x";
    }
    LongestOfOne(u, full);
    LiteralPathIsClean();
  }

  lemma LiteralPathIsClean()
    ensures CleanPath("/a:/x") == "/a:/x"
  {
    var names := ["a:", "x"];
    assert Text.Join(["x"]) == "x" && names[1..] == ["x"];
    assert "/" + Text.Join(names) == "/a:/x";
    PlainShape(names);
  }
}
