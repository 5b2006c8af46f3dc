/** What holds of every mux holds of the two inside the server: each side's table is the table of a
    history of `Handle` and `RemoveHandleFunc` calls. */
module ServerRuns {
  import opened Options
  import opened Paths
  import opened Routes
  import opened Redirects
  import opened Listeners
  import opened ServerState

  /** The call that an event makes on the private mux, if any. */
  function PrivateOps(s: SrvState, e: Event): seq<Op> {
    match e
    case EvConfigure(c, _) =>
      if SetsStaticDir(s.private, c.private)
      then [OpHandle(NewHandler("GET", "/", ON_PRIV_STATIC_SRV_URI, c.private.staticAccessLevel))] else []
    case EvRegister(verb, path, f, kind, level) =>
      if Rooted(path) && (kind.PrivateHandler? || kind.AllHandler?)
      then [OpHandle(NewHandler(verb, path, f, level))] else []
    case EvRemove(verb, path) => [OpRemove(verb, path)]
    case EvLocalAddrs(_) => []
  }

  /** The call that it makes on the public mux, which a panic on the private side forestalls. */
  function PublicOps(s: SrvState, e: Event): seq<Op> {
    match e
    case EvConfigure(c, _) =>
      if SetsStaticDir(s.public, c.public) && ApplySide(s.private, c.private, ON_PRIV_STATIC_SRV_URI).1 == Done
      then [OpHandle(NewHandler("GET", "/", ON_PUB_STATIC_SRV_URI, c.public.staticAccessLevel))] else []
    case EvRegister(verb, path, f, kind, level) =>
      var u := NewHandler(verb, path, f, level);
      if Rooted(path) && (kind.PublicHandler? || (kind.AllHandler? && !HandlePanics(s.private.routes.table, u)))
      then [OpHandle(NewHandler(verb, path, f, level))] else []
    case EvRemove(verb, path) => [OpRemove(verb, path)]
    case EvLocalAddrs(_) => []
  }

  function ApplyAll(t: Table, ops: seq<Op>): Table
    requires |ops| <= 1
  {
    if ops == [] then t else Apply(t, ops[0])
  }

  lemma NextOnPrivate(s: SrvState, e: Event)
    ensures Next(s, e).0.private.routes.table == ApplyAll(s.private.routes.table, PrivateOps(s, e))
  {
  }

  lemma NextOnPublic(s: SrvState, e: Event)
    ensures Next(s, e).0.public.routes.table == ApplyAll(s.public.routes.table, PublicOps(s, e))
  {
  }

  /** The event registers this pattern for this method. */
  predicate Registers(e: Event, verb: string, pattern: string) {
    e.EvRegister? && Rooted(e.path) && e.verb == verb && e.path == pattern
  }

  /** The registration is one of the run's, or that of a static directory. */
  ghost predicate ComesFrom(events: seq<Event>, op: Op) {
    op.OpHandle? ==>
      (op.u.verb == "GET" && op.u.pattern == "/")
      || exists i :: 0 <= i < |events| && Registers(events[i], op.u.verb, op.u.pattern)
  }

  lemma OpsOfEvent(s: SrvState, events: seq<Event>, op: Op)
    requires events != []
    requires var e := events[|events| - 1]; op in PrivateOps(s, e) || op in PublicOps(s, e)
    ensures ComesFrom(events, op)
  {
    var e := events[|events| - 1];
    if op.OpHandle? && e.EvRegister? {
      assert Registers(events[|events| - 1], op.u.verb, op.u.pattern);
    }
  }

  lemma ComesFromLonger(events: seq<Event>, op: Op)
    requires events != [] && ComesFrom(events[..|events| - 1], op)
    ensures ComesFrom(events, op)
  {
    var init := events[..|events| - 1];
    if op.OpHandle? && !(op.u.verb == "GET" && op.u.pattern == "/") {
      var i :| 0 <= i < |init| && Registers(init[i], op.u.verb, op.u.pattern);
      assert Registers(events[i], op.u.verb, op.u.pattern);
    }
  }

  lemma RunExtends(ops: seq<Op>, more: seq<Op>)
    requires |more| <= 1
    ensures Run(ops + more) == ApplyAll(Run(ops), more)
  {
    if more == [] {
      assert ops + more == ops;
    } else {
      assert (ops + more)[..|ops + more| - 1] == ops;
    }
  }

  ghost predicate History(ops: seq<Op>, t: Table, events: seq<Event>) {
    Run(ops) == t && forall op :: op in ops ==> ComesFrom(events, op)
  }

  lemma HistoryGrows(ops: seq<Op>, t: Table, events: seq<Event>, more: seq<Op>)
    requires events != [] && History(ops, t, events[..|events| - 1]) && |more| <= 1
    requires forall op :: op in more ==> ComesFrom(events, op)
    ensures History(ops + more, ApplyAll(t, more), events)
  {
    RunExtends(ops, more);
    forall op | op in ops + more
      ensures ComesFrom(events, op)
    {
      if op in ops {
        ComesFromLonger(events, op);
      }
    }
  }

  /** Each side of the server is a mux with a history of its own, whose registrations are those of the
      run. */
  lemma {:induction false} SideHistories(events: seq<Event>) returns (privateOps: seq<Op>, publicOps: seq<Op>)
    ensures History(privateOps, RunAll(events).private.routes.table, events)
    ensures History(publicOps, RunAll(events).public.routes.table, events)
  {
    if events == [] {
      privateOps, publicOps := [], [];
    } else {
      var init, e := events[..|events| - 1], events[|events| - 1];
      var before := RunAll(init);
      privateOps, publicOps := SideHistories(init);
      NextOnPrivate(before, e);
      NextOnPublic(before, e);
      var p, q := PrivateOps(before, e), PublicOps(before, e);
      forall op | op in p || op in q
        ensures ComesFrom(events, op)
      {
        OpsOfEvent(before, events, op);
      }
      HistoryGrows(privateOps, before.private.routes.table, events, p);
      HistoryGrows(publicOps, before.public.routes.table, events, q);
      privateOps, publicOps := privateOps + p, publicOps + q;
    }
  }

  // ----- what registrations of the run decide -----

  /** Every registration of the run that is not turned away for its path names a colon-free method. */
  ghost predicate ColonFreeEvents(events: seq<Event>) {
    forall i :: 0 <= i < |events| && events[i].EvRegister? && Rooted(events[i].path) ==> ColonFree(events[i].verb)
  }

  /** And none of them, for this method, doubles the last slash of a canonical path. */
  ghost predicate NoDoubledSlashEvents(events: seq<Event>, verb: string) {
    forall i :: 0 <= i < |events| && events[i].EvRegister? && events[i].verb == verb
                ==> !DoublesItsSlash(events[i].path)
  }

  lemma ComesFromDisciplined(events: seq<Event>, op: Op)
    requires ComesFrom(events, op) && op.OpHandle?
    ensures Rooted(op.u.pattern)
    ensures ColonFreeEvents(events) ==> ColonFree(op.u.verb)
    ensures NoDoubledSlashEvents(events, op.u.verb) ==> !DoublesItsSlash(op.u.pattern)
  {
    if op.u.verb == "GET" && op.u.pattern == "/" {
      CanonicalDoublesNothing("/");
    } else {
      var i :| 0 <= i < |events| && Registers(events[i], op.u.verb, op.u.pattern);
    }
  }

  lemma HistoryIsDisciplined(ops: seq<Op>, t: Table, events: seq<Event>, verb: string)
    requires History(ops, t, events) && ColonFreeEvents(events)
    ensures Disciplined(ops) && RegistersColonFree(ops)
    ensures NoDoubledSlashEvents(events, verb) ==> NoDoubledSlash(ops, verb)
  {
    forall i | 0 <= i < |ops| && ops[i].OpHandle?
      ensures Rooted(ops[i].u.pattern) && ColonFree(ops[i].u.verb)
      ensures NoDoubledSlashEvents(events, verb) && ops[i].u.verb == verb ==> !DoublesItsSlash(ops[i].u.pattern)
    {
      assert ops[i] in ops;
      ComesFromDisciplined(events, ops[i]);
    }
  }

  /** The table of one side after a run. */
  function SideTable(events: seq<Event>, public: bool): Table {
    if public then RunAll(events).public.routes.table else RunAll(events).private.routes.table
  }

  /** The history of one side. */
  lemma SideHistory(events: seq<Event>, public: bool) returns (ops: seq<Op>)
    ensures History(ops, SideTable(events, public), events)
  {
    var privateOps, publicOps := SideHistories(events);
    ops := if public then publicOps else privateOps;
  }

  /** So over any run of the server with colon-free methods, every redirect chain on a side ends well,
      for a method other than CONNECT, exactly when that side holds no trap for it. */
  lemma ServerRedirectsEndExactlyWhen(events: seq<Event>, public: bool, host: string, verb: string)
    requires ColonFreeEvents(events) && ColonFree(verb) && verb != "CONNECT"
    ensures var t := SideTable(events, public);
            (forall path, limit: nat :: limit >= 2 ==> EndsWell(t, verb, Follow(t, host, verb, path, limit), 3))
            <==> (forall k :: !Trap(t, verb, k))
  {
    var ops := SideHistory(events, public);
    HistoryIsDisciplined(ops, SideTable(events, public), events, verb);
    DisciplinedRunIsRooted(ops);
    RedirectsEndExactlyWhen(SideTable(events, public), host, verb);
  }

  /** In particular when no registration of the run doubles its last slash: a client of either side is
      then served by an explicit route of its own method, or told that there is none, after at most
      two redirects. */
  lemma ServerRedirectsEnd(events: seq<Event>, public: bool, host: string, verb: string, path: string, limit: nat)
    requires ColonFreeEvents(events) && NoDoubledSlashEvents(events, verb) && ColonFree(verb) && limit >= 2
    ensures var t := SideTable(events, public);
            EndsWell(t, verb, Follow(t, host, verb, path, limit), if verb == "CONNECT" then 2 else 3)
  {
    var ops := SideHistory(events, public);
    HistoryIsDisciplined(ops, SideTable(events, public), events, verb);
    RedirectsEnd(ops, host, verb, path, limit);
  }

  /** No route of a side is missed, whatever else is registered and whatever the methods: a request for its
      pattern or for any path below a slash-ended pattern is answered by the longest key that reaches
      it, which is the route's or a longer one. */
  lemma ServerRouteIsNeverMissed(events: seq<Event>, public: bool, host: string,
                                 verb: string, pattern: string, path: string) returns (k: string)
    requires verb + ":" + pattern in SideTable(events, public).m && IsLookedUp(verb, path)
    requires pattern == path || (EndsInSlash(pattern) && pattern <= path)
    ensures var t := SideTable(events, public);
            IsLongestReach(t.m, verb + ":" + path, k) && |verb + ":" + pattern| <= |k|
            && Answer(t, host, verb, path) == (Some(t.m[k].h), t.m[k].pattern)
  {
    RunIsOk(events);
    k := RouteIsNeverMissed(SideTable(events, public), host, verb, pattern, path);
  }

  /** And a side answers only with handlers of the request's own method, whose pattern is the path or
      a slash-ended prefix of it. */
  lemma ServerRespectsMethod(events: seq<Event>, public: bool, host: string, verb: string, path: string)
    requires ColonFreeEvents(events) && ColonFree(verb)
    ensures match HandlerAt(SideTable(events, public), host, verb, path).0
            case None => true
            case Some(h) =>
              h.verb == verb && (h.pattern == path || (EndsInSlash(h.pattern) && h.pattern <= path))
  {
    var ops := SideHistory(events, public);
    HistoryIsDisciplined(ops, SideTable(events, public), events, verb);
    RunIsOk(events);
    LookupRespectsMethod(ops, verb, path);
  }

  /** Over any run, colons or not, a route of a side answers some request of another method exactly when
      its own method holds a colon and what follows, with the pattern, is a path that requests are
      answered for. */
  lemma ServerRouteLeaksExactlyWhen(events: seq<Event>, public: bool, key: string, host: string)
    requires Explicit(SideTable(events, public).m, key)
    ensures var t := SideTable(events, public);
            (exists verb, path :: AnswersOther(t, key, host, verb, path))
            <==> CanLeak(t.m[key].h.verb, t.m[key].h.pattern)
  {
    RunIsOk(events);
    RouteLeaksExactlyWhen(SideTable(events, public), key, host);
  }
}
