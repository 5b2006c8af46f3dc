/** The router object of netXMux.go: its methods, proved against the route table they stand for. */
module Mux {
  import opened Options
  import opened Paths
  import opened Routes

  class XMux {
    var m: RouteMap
    var hosts: bool

    ghost function State(): Table
      reads this
    {
      Table(m, hosts)
    }

    ghost predicate Valid()
      reads this
    {
      TableOk(m)
    }

    constructor ()
      ensures State() == EMPTY_TABLE && Valid()
    {
      m, hosts := map[], false;
    }

    /** Scans the map in an order it does not choose and keeps the longest matching key. */
    method Match(path: string) returns (h: Option<UriHandler>, pattern: string)
      ensures (h, pattern) == Lookup(m, path)
      ensures forall k :: IsLongestReach(m, path, k) ==> h == Some(m[k].h) && pattern == m[k].pattern
      ensures h == None <==> forall k :: k in m ==> !Reaches(k, path)
    {
      var n := 0;
      h, pattern := None, "";
      var rest := m.Keys;
      ghost var at := "";
      while rest != {}
        invariant rest <= m.Keys
        invariant h == None ==> pattern == "" && forall k :: k in m && k !in rest ==> !PathMatch(k, path)
        invariant h.Some? ==> at in m && PathMatch(at, path) && |at| == n
        invariant h.Some? ==> h == Some(m[at].h) && pattern == m[at].pattern
        invariant h.Some? ==> forall k :: k in m && k !in rest && PathMatch(k, path) ==> |k| <= n
        decreases rest
      {
        var k :| k in rest;
        rest := rest - {k};
        var v := m[k];
        if !PathMatch(k, path) {
          continue;
        }
        if h == None || |k| > n {
          n := |k|;
          h := Some(v.h);
          pattern := v.pattern;
          at := k;
        }
      }
      BestKeyIsTheLongestMatch(m, path, at);
      if h.Some? {
        assert IsLongestMatch(m, path, at);
      }
      forall k
        ensures IsLongestReach(m, path, k) ==> Lookup(m, path) == (Some(m[k].h), m[k].pattern)
        ensures Lookup(m, path).0 == None <==> forall k' :: k' in m ==> !Reaches(k', path)
      {
        LookupIsLongestReach(m, path, k);
      }
    }

    method FindHandler(host: string, verb: string, path: string) returns (h: Option<UriHandler>, pattern: string)
      ensures (h, pattern) == HandlerAt(State(), host, verb, path)
    {
      h, pattern := None, "";
      if hosts {
        h, pattern := Match(host + MakeKey(verb, path));
      }
      if h == None {
        h, pattern := Match(MakeKey(verb, path));
      }
    }

    method Handler(host: string, verb: string, path: string) returns (h: Option<UriHandler>, pattern: string)
      ensures (h, pattern) == Answer(State(), host, verb, path)
    {
      if verb != "CONNECT" {
        var p := CleanPath(path);
        if p != path {
          var _, registered := FindHandler(host, verb, p);
          return Some(UriHandler(verb, MuxRedirect(p), registered, 0)), registered;
        }
      }
      h, pattern := FindHandler(host, verb, path);
    }

    method Handle(u: Registration) returns (r: Outcome)
      requires Valid()
      modifies this
      ensures Valid() && State() == Register(old(State()), u)
      ensures r == Panic <==> HandlePanics(old(State()), u)
    {
      RegisterKeepsTableOk(State(), u);
      if u.pattern == "" {
        return Panic;
      }
      var n := |u.pattern|;
      var key := MakeKey(u.verb, u.pattern);
      var keyNoTrailingSlash := MakeKey(u.verb, u.pattern[..n - 1]);
      if u.handler.NilHandler? {
        return Panic;
      }
      if key in m && m[key].explicit {
        return Panic;
      }
      m := m[key := MuxEntry(true, u, u.pattern)];
      if u.pattern[0] != '/' {
        hosts := true;
      }
      assert key != keyNoTrailingSlash by { assert |key| == |keyNoTrailingSlash| + 1; }
      if u.pattern[n - 1] == '/' && !(keyNoTrailingSlash in m && m[keyNoTrailingSlash].explicit) {
        var path := u.pattern;
        if u.pattern[0] != '/' {
          path := FromFirstSlash(u.pattern);
        }
        var helper := UriHandler(u.verb, MuxRedirect(path), u.pattern[..n - 1], u.requiredAccess);
        m := m[keyNoTrailingSlash := MuxEntry(false, helper, u.pattern)];
      }
      return Done;
    }

    method RemoveHandleFunc(verb: string, uriPattern: string)
      requires Valid()
      modifies this
      ensures Valid() && State() == Unregister(old(State()), verb, uriPattern)
    {
      UnregisterKeepsTableOk(State(), verb, uriPattern);
      m := m - {MakeKey(verb, uriPattern)};
      var n := |uriPattern|;
      if n > 0 && uriPattern[n - 1] == '/' {
        var keyNoTrailingSlash := MakeKey(verb, uriPattern[..n - 1]);
        if !(keyNoTrailingSlash in m && m[keyNoTrailingSlash].explicit) {
          m := m - {keyNoTrailingSlash};
        }
      }
    }
  }
}
