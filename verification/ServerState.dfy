/** The state of the HTTP server as values (net.go): the routes and the addresses of its two sides,
    what each call does to them, and what every run of calls keeps. */
module ServerState {
  import opened Options
  import opened Cidr
  import opened Paths
  import opened Routes
  import opened Listeners

  // ----- one side's routes -----

  /** One side: the map of handlers by key that the server lists, and its mux. */
  datatype Side = Side(handlers: map<string, UriHandler>, table: Table)

  function ExplicitKeys(m: RouteMap): set<string> {
    set k | k in m && m[k].explicit
  }

  /** The handler map is written first, and stays written when the mux then panics. */
  function RegisterSide(s: Side, u: Registration): Side {
    Side(s.handlers[MakeKey(u.verb, u.pattern) := u], Register(s.table, u))
  }

  function RemoveSide(s: Side, verb: string, path: string): Side {
    Side(s.handlers - {MakeKey(verb, path)}, Unregister(s.table, verb, path))
  }

  /** The two maps of a side agree: the handler map has exactly the keys of the explicit routes. */
  ghost predicate SideOk(s: Side) {
    TableOk(s.table.m) && !s.table.hosts && s.handlers.Keys == ExplicitKeys(s.table.m)
  }

  lemma RegisterAddsKey(m: RouteMap, u: Registration)
    requires u.pattern != ""
    ensures ExplicitKeys(AddRoute(m, u)) == ExplicitKeys(m) + {MakeKey(u.verb, u.pattern)}
  {
    var key := MakeKey(u.verb, u.pattern);
    assert |ImplicitKey(u.verb, u.pattern)| < |key|;
    forall k
      ensures k in ExplicitKeys(AddRoute(m, u)) <==> k in ExplicitKeys(m) || k == key
    {
    }
  }

  lemma RegisterSideKeepsOk(s: Side, u: Registration)
    requires SideOk(s) && Rooted(u.pattern) && u.handler.App?
    ensures SideOk(RegisterSide(s, u))
  {
    RegisterKeepsTableOk(s.table, u);
    RegisterAddsKey(s.table.m, u);
  }

  /** The handler listed for each explicit route is the one that serves it. */
  ghost predicate SideAgrees(s: Side) {
    forall k :: k in s.handlers && Explicit(s.table.m, k) ==> s.handlers[k] == s.table.m[k].h
  }

  /** Registering keeps that exactly when the route is new or the handler is the one already there: a
      panicking duplicate leaves the new handler listed while the old one goes on serving. */
  lemma DuplicateListsTheWrongHandler(s: Side, u: Registration)
    requires SideOk(s) && SideAgrees(s) && Rooted(u.pattern) && u.handler.App?
    ensures var key := MakeKey(u.verb, u.pattern);
            SideAgrees(RegisterSide(s, u)) <==> !Explicit(s.table.m, key) || s.table.m[key].h == u
  {
  }

  lemma RemoveSideKeepsOk(s: Side, verb: string, path: string)
    requires SideOk(s)
    ensures SideOk(RemoveSide(s, verb, path))
  {
    UnregisterKeepsTableOk(s.table, verb, path);
    var key := MakeKey(verb, path);
    forall k
      ensures k in ExplicitKeys(RemoveRoute(s.table.m, verb, path)) <==> k in ExplicitKeys(s.table.m) && k != key
    {
    }
  }

  // ----- the server -----

  /** One side of the server: its settings, its routes, and the addresses it listens on. */
  datatype SideState = SideState(port: int, tlsPort: int, staticDir: string, routes: Side, keys: set<Addr>)

  datatype SrvState = SrvState(private: SideState, public: SideState,
                               ignoreAddrs: seq<Ip>, tlsCfg: Option<int>, localAddrs: seq<Ip>)

  const NEW_SIDE := SideState(0, 0, "", Side(map[], EMPTY_TABLE), {})

  const NEW_SERVER := SrvState(NEW_SIDE, NEW_SIDE, [], None, [])

  /** What `Configure` is given for one side. */
  datatype SideSettings = SideSettings(port: int, tlsPort: int, staticDir: string, staticAccessLevel: int)

  /** What `Configure` is given; the certificates stand for the TLS configuration made of them. */
  datatype Settings = Settings(private: SideSettings, public: SideSettings,
                               ignoreAddrs: seq<Ip>, certs: Option<int>, forceRestart: bool)

  datatype HandlerType = PrivateHandler | PublicHandler | AllHandler | UnknownHandler

  /** The handlers of the static routes. */
  const ON_PRIV_STATIC_SRV_URI := -1
  const ON_PUB_STATIC_SRV_URI := -2

  function NewHandler(verb: string, path: string, f: int, level: int): Registration {
    UriHandler(verb, App(f), path, level)
  }

  function RegisterOn(d: SideState, u: Registration): (SideState, Outcome) {
    (d.(routes := RegisterSide(d.routes, u)), if HandlePanics(d.routes.table, u) then Panic else Done)
  }

  /** `registerHandler`: the state it leaves and whether it panicked. For both sides at once, a panic
      on the private side leaves the public side alone. */
  function RegisterHandler(s: SrvState, verb: string, path: string, f: int, kind: HandlerType, level: int)
    : (SrvState, Outcome)
  {
    var u := NewHandler(verb, path, f, level);
    var (private, r) := RegisterOn(s.private, u);
    var (public, q) := RegisterOn(s.public, u);
    if !Rooted(path) then (s, Panic)
    else match kind
      case PrivateHandler => (s.(private := private), r)
      case PublicHandler => (s.(public := public), q)
      case AllHandler =>
        if r == Panic then (s.(private := private), Panic) else (s.(private := private, public := public), q)
      case UnknownHandler => (s, Done)
  }

  function RemoveHandler(s: SrvState, verb: string, path: string): SrvState {
    s.(private := s.private.(routes := RemoveSide(s.private.routes, verb, path)),
       public := s.public.(routes := RemoveSide(s.public.routes, verb, path)))
  }

  // ----- Configure -----

  predicate Changed(d: SideState, c: SideSettings) {
    d.port != c.port || d.tlsPort != c.tlsPort || d.staticDir != c.staticDir
  }

  /** The settings of one side; a new, non-empty static directory registers its route, which may
      panic. */
  function ApplySide(d: SideState, c: SideSettings, f: int): (SideState, Outcome) {
    var d1 := SideState(c.port, c.tlsPort, c.staticDir, d.routes, d.keys);
    if d.staticDir != c.staticDir && c.staticDir != ""
    then RegisterOn(d1, NewHandler("GET", "/", f, c.staticAccessLevel))
    else (d1, Done)
  }

  function RestartSide(d: SideState, http: set<Addr>, tls: set<Addr>, refused: Refusals): SideState {
    d.(keys := KeysAfter(d.keys, http, tls, refused))
  }

  function RestartPrivate(s: SrvState, refused: Refusals): SrvState {
    s.(private := RestartSide(s.private, PrivateList(s.localAddrs, s.ignoreAddrs, s.private.port),
                               PrivateList(s.localAddrs, s.ignoreAddrs, s.private.tlsPort), refused))
  }

  function RestartPublic(s: SrvState, refused: Refusals): SrvState {
    s.(public := RestartSide(s.public, PublicList(s.localAddrs, s.public.port),
                             PublicList(s.localAddrs, s.public.tlsPort), refused))
  }

  /** The settings half of `Configure`: private side first, then the public one; a panic stops it. */
  function ApplySettings(s: SrvState, c: Settings): (SrvState, Outcome) {
    var (private, r) := ApplySide(s.private, c.private, ON_PRIV_STATIC_SRV_URI);
    var s1 := s.(ignoreAddrs := c.ignoreAddrs, private := private);
    if r == Panic then (s1, Panic)
    else
      var (public, q) := ApplySide(s.public, c.public, ON_PUB_STATIC_SRV_URI);
      if q == Panic then (s1.(public := public), Panic) else (s1.(public := public, tlsCfg := c.certs), Done)
  }

  function Configure(s: SrvState, c: Settings, refused: Refusals): (SrvState, Outcome) {
    var (s1, r) := ApplySettings(s, c);
    if r == Panic then (s1, Panic)
    else
      var s2 := if Changed(s.private, c.private) || c.forceRestart then RestartPrivate(s1, refused) else s1;
      (if Changed(s.public, c.public) || c.forceRestart then RestartPublic(s2, refused) else s2, Done)
  }

  // ----- what every state satisfies -----

  /** Private listeners have private addresses, and public ones have not. */
  ghost predicate AddrsOk(s: SrvState) {
    (forall a :: a in s.private.keys ==> InPrivateNets(a.ip))
    && (forall a :: a in s.public.keys ==> !InPrivateNets(a.ip))
  }

  ghost predicate SrvOk(s: SrvState) {
    SideOk(s.private.routes) && SideOk(s.public.routes) && AddrsOk(s)
  }

  /** Every open address of the side has a port that the side is configured with now. */
  ghost predicate PortsCurrent(d: SideState) {
    forall a :: a in d.keys ==> a.port > 0 && (a.port == d.port || a.port == d.tlsPort)
  }

  lemma RegisterOnKeepsOk(d: SideState, verb: string, path: string, f: int, level: int)
    requires SideOk(d.routes) && Rooted(path)
    ensures SideOk(RegisterOn(d, NewHandler(verb, path, f, level)).0.routes)
  {
    RegisterSideKeepsOk(d.routes, NewHandler(verb, path, f, level));
  }

  lemma RegisterHandlerKeepsOk(s: SrvState, verb: string, path: string, f: int, kind: HandlerType, level: int)
    requires SrvOk(s)
    ensures SrvOk(RegisterHandler(s, verb, path, f, kind, level).0)
  {
    if Rooted(path) {
      RegisterOnKeepsOk(s.private, verb, path, f, level);
      RegisterOnKeepsOk(s.public, verb, path, f, level);
    }
  }

  lemma RemoveHandlerKeepsOk(s: SrvState, verb: string, path: string)
    requires SrvOk(s)
    ensures SrvOk(RemoveHandler(s, verb, path))
  {
    RemoveSideKeepsOk(s.private.routes, verb, path);
    RemoveSideKeepsOk(s.public.routes, verb, path);
  }

  lemma ApplySideKeepsOk(d: SideState, c: SideSettings, f: int)
    requires SideOk(d.routes)
    ensures SideOk(ApplySide(d, c, f).0.routes) && ApplySide(d, c, f).0.keys == d.keys
  {
    RegisterSideKeepsOk(d.routes, NewHandler("GET", "/", f, c.staticAccessLevel));
  }

  lemma ApplySettingsKeepsOk(s: SrvState, c: Settings)
    requires SrvOk(s)
    ensures SrvOk(ApplySettings(s, c).0)
  {
    ApplySideKeepsOk(s.private, c.private, ON_PRIV_STATIC_SRV_URI);
    ApplySideKeepsOk(s.public, c.public, ON_PUB_STATIC_SRV_URI);
  }

  /** Neither side wants an address that is open on the other. */
  lemma PrivateListsApart(s: SrvState)
    requires AddrsOk(s)
    ensures (PrivateList(s.localAddrs, s.ignoreAddrs, s.private.port)
             + PrivateList(s.localAddrs, s.ignoreAddrs, s.private.tlsPort)) !! s.public.keys
  {
  }

  lemma PublicListsApart(s: SrvState)
    requires AddrsOk(s)
    ensures (PublicList(s.localAddrs, s.public.port) + PublicList(s.localAddrs, s.public.tlsPort)) !! s.private.keys
  {
  }

  /** What a call that does not panic has set before it restarts anything. */
  lemma SettingsApplied(s: SrvState, c: Settings)
    requires ApplySettings(s, c).1 == Done
    ensures var s' := ApplySettings(s, c).0;
            s'.private.port == c.private.port && s'.private.tlsPort == c.private.tlsPort
            && s'.public.port == c.public.port && s'.public.tlsPort == c.public.tlsPort
            && s'.ignoreAddrs == c.ignoreAddrs && s'.tlsCfg == c.certs && s'.localAddrs == s.localAddrs
  {
  }

  lemma RestartsKeepOk(s: SrvState, refused: Refusals)
    requires SrvOk(s)
    ensures SrvOk(RestartPrivate(s, refused)) && SrvOk(RestartPublic(s, refused))
  {
  }

  /** `Configure` keeps the two maps of each side in step and the two sides' addresses apart, whether
      it panics or not. */
  lemma ConfigureKeepsOk(s: SrvState, c: Settings, refused: Refusals)
    requires SrvOk(s)
    ensures SrvOk(Configure(s, c, refused).0)
  {
    ApplySettingsKeepsOk(s, c);
    var s1 := ApplySettings(s, c).0;
    RestartsKeepOk(s1, refused);
    RestartsKeepOk(RestartPrivate(s1, refused), refused);
  }

  lemma RestartSidePorts(d: SideState, http: set<Addr>, tls: set<Addr>, refused: Refusals)
    requires forall a :: a in http ==> a.port == d.port > 0
    requires forall a :: a in tls ==> a.port == d.tlsPort > 0
    ensures PortsCurrent(RestartSide(d, http, tls, refused))
  {
  }

  /** When it does not panic, it leaves no listener on a port that is no longer configured. */
  lemma ConfigureKeepsPortsCurrent(s: SrvState, c: Settings, refused: Refusals)
    requires PortsCurrent(s.private) && PortsCurrent(s.public) && Configure(s, c, refused).1 == Done
    ensures var s' := Configure(s, c, refused).0; PortsCurrent(s'.private) && PortsCurrent(s'.public)
  {
    var s1 := ApplySettings(s, c).0;
    RestartSidePorts(s1.private, PrivateList(s1.localAddrs, s1.ignoreAddrs, s1.private.port),
                     PrivateList(s1.localAddrs, s1.ignoreAddrs, s1.private.tlsPort), refused);
    RestartSidePorts(s1.public, PublicList(s1.localAddrs, s1.public.port),
                     PublicList(s1.localAddrs, s1.public.tlsPort), refused);
  }

  /** The side must register a static route that it has already. */
  predicate StaticRouteClash(d: SideState, c: SideSettings) {
    d.staticDir != c.staticDir && c.staticDir != "" && Explicit(d.routes.table.m, MakeKey("GET", "/"))
  }

  /** `Configure` panics exactly when the static directory of a side changes to a non-empty one while
      that side has an explicit route for `GET /`. */
  lemma ConfigurePanicsExactlyWhen(s: SrvState, c: Settings, refused: Refusals)
    ensures Configure(s, c, refused).1 == Panic <==>
            StaticRouteClash(s.private, c.private) || StaticRouteClash(s.public, c.public)
  {
  }

  predicate SetsStaticDir(d: SideState, c: SideSettings) {
    d.staticDir != c.staticDir && c.staticDir != ""
  }

  /** The side has this very route: the handler, its method and pattern, and the level it requires. */
  predicate Serves(d: SideState, verb: string, path: string, f: int, level: int) {
    var key, m := verb + ":" + path, d.routes.table.m;
    key in m && m[key] == MuxEntry(true, UriHandler(verb, App(f), path, level), path)
  }

  lemma SettingRegistersTheRoute(d: SideState, c: SideSettings, f: int)
    requires SetsStaticDir(d, c) && ApplySide(d, c, f).1 == Done
    ensures Serves(ApplySide(d, c, f).0, "GET", "/", f, c.staticAccessLevel)
    ensures Explicit(ApplySide(d, c, f).0.routes.table.m, MakeKey("GET", "/"))
  {
    assert |ImplicitKey("GET", "/")| < |MakeKey("GET", "/")|;
    assert MakeKey("GET", "/") == "GET" + ":" + "/";
  }

  // ----- runs -----

  datatype Event =
    | EvConfigure(c: Settings, refused: Refusals)
    | EvRegister(verb: string, path: string, f: int, kind: HandlerType, level: int)
    | EvRemove(verb: string, path: string)
    | EvLocalAddrs(addrs: seq<Ip>)

  function Next(s: SrvState, e: Event): (SrvState, Outcome) {
    match e
    case EvConfigure(c, refused) => Configure(s, c, refused)
    case EvRegister(verb, path, f, kind, level) => RegisterHandler(s, verb, path, f, kind, level)
    case EvRemove(verb, path) => (RemoveHandler(s, verb, path), Done)
    case EvLocalAddrs(addrs) => (s.(localAddrs := addrs), Done)
  }

  function RunAll(events: seq<Event>): SrvState {
    if events == [] then NEW_SERVER else Next(RunAll(events[..|events| - 1]), events[|events| - 1]).0
  }

  lemma NextKeepsOk(s: SrvState, e: Event)
    requires SrvOk(s)
    ensures SrvOk(Next(s, e).0)
  {
    match e
    case EvConfigure(c, refused) => ConfigureKeepsOk(s, c, refused);
    case EvRegister(verb, path, f, kind, level) => RegisterHandlerKeepsOk(s, verb, path, f, kind, level);
    case EvRemove(verb, path) => RemoveHandlerKeepsOk(s, verb, path);
    case EvLocalAddrs(_) =>
  }

  /** Over any run of calls, the panicking ones included, each side's handler map has exactly the keys
      of its mux's explicit routes, host lookup stays off, private listeners have private addresses
      and public ones have not. */
  lemma {:induction false} RunIsOk(events: seq<Event>)
    ensures SrvOk(RunAll(events))
  {
    if events != [] {
      RunIsOk(events[..|events| - 1]);
      NextKeepsOk(RunAll(events[..|events| - 1]), events[|events| - 1]);
    }
  }

  // ----- ports -----

  ghost predicate BothCurrent(s: SrvState) {
    PortsCurrent(s.private) && PortsCurrent(s.public)
  }

  predicate OnPortsOf(keys: set<Addr>, c: SideSettings) {
    forall a :: a in keys ==> a.port == c.port || a.port == c.tlsPort
  }

  /** What is open on a side whose ports a panicking call has set is on those ports all the same; the
      public side is set only if the private one did not panic. */
  predicate PanicIsHarmless(s: SrvState, c: Settings) {
    OnPortsOf(s.private.keys, c.private)
    && (StaticRouteClash(s.private, c.private) || OnPortsOf(s.public.keys, c.public))
  }

  /** A call that panics has set ports and restarts nothing, so that it leaves every open address on a
      configured port exactly when it is harmless. */
  lemma PanicKeepsPortsExactlyWhen(s: SrvState, c: Settings, refused: Refusals)
    requires BothCurrent(s) && Configure(s, c, refused).1 == Panic
    ensures BothCurrent(Configure(s, c, refused).0) <==> PanicIsHarmless(s, c)
  {
    var s' := Configure(s, c, refused).0;
    ConfigurePanicsExactlyWhen(s, c, refused);
    assert s'.private.keys == s.private.keys && s'.public.keys == s.public.keys;
    assert PortsCurrent(s'.private) <==> OnPortsOf(s.private.keys, c.private);
  }

  /** A `Configure` that panics in this state is harmless. */
  predicate HarmlessIfPanics(s: SrvState, e: Event) {
    e.EvConfigure? && Next(s, e).1 == Panic ==> PanicIsHarmless(s, e.c)
  }

  lemma NextKeepsPorts(s: SrvState, e: Event)
    requires BothCurrent(s)
    ensures BothCurrent(Next(s, e).0) <==> HarmlessIfPanics(s, e)
  {
    if e.EvConfigure? {
      if Next(s, e).1 == Panic {
        PanicKeepsPortsExactlyWhen(s, e.c, e.refused);
      } else {
        ConfigureKeepsPortsCurrent(s, e.c, e.refused);
      }
    }
  }

  /** Every `Configure` of the run that panicked was harmless. */
  ghost predicate PanicsAreHarmless(events: seq<Event>) {
    events != [] ==>
      var n := |events| - 1; PanicsAreHarmless(events[..n]) && HarmlessIfPanics(RunAll(events[..n]), events[n])
  }

  /** After each event of the run, every open address is on a port configured for its side. */
  ghost predicate AlwaysCurrent(events: seq<Event>) {
    BothCurrent(RunAll(events)) && (events != [] ==> AlwaysCurrent(events[..|events| - 1]))
  }

  /** Over any run, ports stay current exactly when each panicking `Configure` was harmless. */
  lemma {:induction false} RunKeepsPortsExactlyWhen(events: seq<Event>)
    ensures AlwaysCurrent(events) <==> PanicsAreHarmless(events)
  {
    if events != [] {
      var n := |events| - 1;
      RunKeepsPortsExactlyWhen(events[..n]);
      if AlwaysCurrent(events[..n]) {
        NextKeepsPorts(RunAll(events[..n]), events[n]);
      }
    }
  }

  /** In particular when none panics; and no run opens an address on both sides. */
  lemma RunKeepsPorts(events: seq<Event>)
    ensures PanicsAreHarmless(events) ==> BothCurrent(RunAll(events))
    ensures RunAll(events).private.keys !! RunAll(events).public.keys
  {
    RunIsOk(events);
    RunKeepsPortsExactlyWhen(events);
  }

  /** The same settings given again do not help, unless a restart is forced: a side whose ports were set
      has nothing changed then, so that its listeners stay as they were. */
  lemma PanickedSettingsAreNotRetried(s: SrvState, c: Settings, refused: Refusals, later: Refusals)
    requires Configure(s, c, refused).1 == Panic
    ensures var (again, r) := Configure(Configure(s, c, refused).0, c.(forceRestart := false), later);
            var private, public := StaticRouteClash(s.private, c.private), StaticRouteClash(s.public, c.public);
            (r == Panic <==> private && public)
            && again.private.keys == s.private.keys
            && again.private.port == c.private.port && again.private.tlsPort == c.private.tlsPort
            && (private || (again.public.keys == s.public.keys
                            && again.public.port == c.public.port && again.public.tlsPort == c.public.tlsPort))
  {
    ConfigurePanicsExactlyWhen(s, c, refused);
    var s1 := Configure(s, c, refused).0;
    ConfigurePanicsExactlyWhen(s1, c.(forceRestart := false), later);
    assert !Changed(s1.private, c.private) && s1.private.keys == s.private.keys;
  }

  lemma FirstPortOpens(ip: Ip, port: int, first: Settings, second: Settings)
    requires InPrivateNets(ip) && port > 0 && first.forceRestart && first.ignoreAddrs == []
    requires first.private == SideSettings(port, 0, "a", 0) && first.public == SideSettings(0, 0, "", 0)
    requires second.private.staticDir == "b" && second.public.staticDir == ""
    ensures var s := Configure(NEW_SERVER.(localAddrs := [ip]), first, {}).0;
            Addr(ip, port) in s.private.keys
            && StaticRouteClash(s.private, second.private) && !StaticRouteClash(s.public, second.public)
  {
    var s0 := NEW_SERVER.(localAddrs := [ip]);
    ConfigurePanicsExactlyWhen(s0, first, {});
    assert Addr(ip, port) in PrivateList([ip], [], port);
    SettingRegistersTheRoute(s0.private, first.private, ON_PRIV_STATIC_SRV_URI);
  }

  lemma SecondPortStaysClosed(s: SrvState, c: Settings, a: Addr)
    requires a in s.private.keys && !c.forceRestart
    requires StaticRouteClash(s.private, c.private) && !StaticRouteClash(s.public, c.public)
    ensures var (again, r) := Configure(Configure(s, c, {}).0, c, {});
            r == Done && a in again.private.keys && again.private.port == c.private.port
  {
    ConfigurePanicsExactlyWhen(s, c, {});
    PanickedSettingsAreNotRetried(s, c, {}, {});
    assert c.(forceRestart := false) == c;
  }

  /** Such a run: for every private address and two ports, the address is opened on the first port, the
      call that moves it to the second panics over the static directory, the same call again succeeds,
      and the server is still listening on the first port. */
  lemma OldPortStaysOpen(ip: Ip, port: int, newPort: int)
    requires InPrivateNets(ip) && port > 0 && newPort != port
    ensures var none := SideSettings(0, 0, "", 0);
            var first := Settings(SideSettings(port, 0, "a", 0), none, [], None, true);
            var second := Settings(SideSettings(newPort, 0, "b", 0), none, [], None, false);
            var run := [EvLocalAddrs([ip]), EvConfigure(first, {}), EvConfigure(second, {}), EvConfigure(second, {})];
            Next(RunAll(run[..3]), run[3]).1 == Done
            && Addr(ip, port) in RunAll(run).private.keys && RunAll(run).private.port == newPort
  {
    var none := SideSettings(0, 0, "", 0);
    var first := Settings(SideSettings(port, 0, "a", 0), none, [], None, true);
    var second := Settings(SideSettings(newPort, 0, "b", 0), none, [], None, false);
    var run := [EvLocalAddrs([ip]), EvConfigure(first, {}), EvConfigure(second, {}), EvConfigure(second, {})];
    RunOfFour([ip], first, second, run);
    FirstPortOpens(ip, port, first, second);
    SecondPortStaysClosed(Configure(NEW_SERVER.(localAddrs := [ip]), first, {}).0, second, Addr(ip, port));
  }

  lemma RunOfFour(addrs: seq<Ip>, first: Settings, second: Settings, run: seq<Event>)
    requires run == [EvLocalAddrs(addrs), EvConfigure(first, {}), EvConfigure(second, {}), EvConfigure(second, {})]
    ensures var s3 := Configure(Configure(NEW_SERVER.(localAddrs := addrs), first, {}).0, second, {}).0;
            RunAll(run[..3]) == s3 && RunAll(run) == Configure(s3, second, {}).0
  {
    assert run[..1][..0] == [] && run[..2][..1] == run[..1] && run[..3][..2] == run[..2];
    assert RunAll(run[..1]) == NEW_SERVER.(localAddrs := addrs);
  }

  // ----- what is registered is served, and stays -----

  function SideOf(s: SrvState, public: bool): SideState {
    if public then s.public else s.private
  }

  function SettingsOf(c: Settings, public: bool): SideSettings {
    if public then c.public else c.private
  }

  /** The sides that a kind of handler is for. */
  predicate IsFor(kind: HandlerType, public: bool) {
    kind == AllHandler || kind == if public then PublicHandler else PrivateHandler
  }

  lemma RegisterOnServes(d: SideState, verb: string, path: string, f: int, level: int)
    requires RegisterOn(d, NewHandler(verb, path, f, level)).1 == Done
    ensures Serves(RegisterOn(d, NewHandler(verb, path, f, level)).0, verb, path, f, level)
  {
    var key := MakeKey(verb, path);
    assert key == verb + ":" + path;
    assert |ImplicitKey(verb, path)| < |key|;
  }

  /** A registration that does not panic gives each side it is for this very route, and lists it; the
      other side, and everything but the routes, stays as it was. */
  lemma RegistrationServes(s: SrvState, verb: string, path: string, f: int, kind: HandlerType, level: int, public: bool)
    requires RegisterHandler(s, verb, path, f, kind, level).1 == Done
    ensures var was, now := SideOf(s, public), SideOf(RegisterHandler(s, verb, path, f, kind, level).0, public);
            if IsFor(kind, public) then
              Serves(now, verb, path, f, level)
              && now.routes.handlers == was.routes.handlers[verb + ":" + path := UriHandler(verb, App(f), path, level)]
              && now.(routes := was.routes) == was
            else now == was
  {
    var d, key := SideOf(s, public), MakeKey(verb, path);
    assert key == verb + ":" + path;
    if IsFor(kind, public) {
      RegisterOnServes(d, verb, path, f, level);
    }
  }

  /** It panics exactly when the path does not begin with a slash, or a side it is for has an explicit
      route of this method and path. */
  lemma RegisterHandlerPanicsExactlyWhen(s: SrvState, verb: string, path: string, f: int, kind: HandlerType, level: int)
    ensures RegisterHandler(s, verb, path, f, kind, level).1 == Panic <==>
            path == "" || path[0] != '/'
            || exists public :: IsFor(kind, public) && Explicit(SideOf(s, public).routes.table.m, verb + ":" + path)
  {
    assert MakeKey(verb, path) == verb + ":" + path;
    assert IsFor(kind, false) <==> kind.PrivateHandler? || kind.AllHandler?;
    assert IsFor(kind, true) <==> kind.PublicHandler? || kind.AllHandler?;
    assert SideOf(s, false) == s.private && SideOf(s, true) == s.public;
  }

  /** A panic leaves every route as it was, but for the private one that a registration for both sides has
      made before the public side panics; a path without a slash, and a panic on the private side, leave
      the public side alone altogether. */
  lemma PanickedRegistration(s: SrvState, verb: string, path: string, f: int, kind: HandlerType, level: int)
    requires RegisterHandler(s, verb, path, f, kind, level).1 == Panic
    ensures var s' := RegisterHandler(s, verb, path, f, kind, level).0;
            var key := verb + ":" + path;
            var made := kind == AllHandler && Rooted(path) && !Explicit(s.private.routes.table.m, key);
            (!Rooted(path) ==> s' == s)
            && s'.public.routes.table == s.public.routes.table
            && (if made then Serves(s'.private, verb, path, f, level)
                else s'.private.routes.table == s.private.routes.table
                     && (kind == AllHandler ==> s'.public == s.public))
  {
    assert MakeKey(verb, path) == verb + ":" + path;
    if Rooted(path) && !HandlePanics(s.private.routes.table, NewHandler(verb, path, f, level)) {
      RegisterOnServes(s.private, verb, path, f, level);
    }
  }

  /** A removal takes the route from both sides, from the listing and the mux alike, with its redirect, and
      nothing else. */
  lemma RemovalIsExact(s: SrvState, verb: string, path: string, public: bool)
    ensures var was, now := SideOf(s, public), SideOf(RemoveHandler(s, verb, path), public);
            var m := was.routes.table.m;
            now.routes.handlers == was.routes.handlers - {verb + ":" + path}
            && now.routes.table == Table(map k | k in m && !IsRemoved(m, verb, path, k) :: m[k], was.routes.table.hosts)
            && now.(routes := was.routes) == was
  {
    assert MakeKey(verb, path) == verb + ":" + path;
    RemovedKeys(SideOf(s, public).routes.table.m, verb, path);
  }

  /** The state after further events. */
  function Continue(s: SrvState, events: seq<Event>): SrvState {
    if events == [] then s else Next(Continue(s, events[..|events| - 1]), events[|events| - 1]).0
  }

  lemma {:induction false} ContinueKeepsOk(s: SrvState, events: seq<Event>)
    requires SrvOk(s)
    ensures SrvOk(Continue(s, events))
  {
    if events != [] {
      ContinueKeepsOk(s, events[..|events| - 1]);
      NextKeepsOk(Continue(s, events[..|events| - 1]), events[|events| - 1]);
    }
  }

  predicate Removes(e: Event, verb: string, path: string) {
    e.EvRemove? && e.verb + ":" + e.path == verb + ":" + path
  }

  /** No event removes this route. */
  ghost predicate KeepsRoute(events: seq<Event>, verb: string, path: string) {
    forall i :: 0 <= i < |events| ==> !Removes(events[i], verb, path)
  }

  lemma RegisterOnKeepsServing(d: SideState, u: Registration, verb: string, path: string, f: int, level: int)
    requires Serves(d, verb, path, f, level)
    ensures Serves(RegisterOn(d, u).0, verb, path, f, level)
  {
  }

  lemma RemoveKeepsServing(d: SideState, e: Event, verb: string, path: string, f: int, level: int)
    requires Serves(d, verb, path, f, level) && e.EvRemove? && !Removes(e, verb, path)
    ensures Serves(d.(routes := RemoveSide(d.routes, e.verb, e.path)), verb, path, f, level)
  {
    assert MakeKey(e.verb, e.path) == e.verb + ":" + e.path;
  }

  lemma ApplyKeepsServing(d: SideState, c: SideSettings, g: int, verb: string, path: string, f: int, level: int)
    requires Serves(d, verb, path, f, level)
    ensures Serves(ApplySide(d, c, g).0, verb, path, f, level)
  {
    var d1 := SideState(c.port, c.tlsPort, c.staticDir, d.routes, d.keys);
    RegisterOnKeepsServing(d1, NewHandler("GET", "/", g, c.staticAccessLevel), verb, path, f, level);
  }

  lemma NextKeepsServing(s: SrvState, e: Event, public: bool, verb: string, path: string, f: int, level: int)
    requires Serves(SideOf(s, public), verb, path, f, level) && !Removes(e, verb, path)
    ensures Serves(SideOf(Next(s, e).0, public), verb, path, f, level)
  {
    var d := SideOf(s, public);
    match e
    case EvConfigure(c, refused) =>
      var g := if public then ON_PUB_STATIC_SRV_URI else ON_PRIV_STATIC_SRV_URI;
      ApplyKeepsServing(d, SettingsOf(c, public), g, verb, path, f, level);
    case EvRegister(v, p, g, kind, l) => RegisterOnKeepsServing(d, NewHandler(v, p, g, l), verb, path, f, level);
    case EvRemove(_, _) => RemoveKeepsServing(d, e, verb, path, f, level);
    case EvLocalAddrs(_) =>
  }

  lemma {:induction false} RouteStays(s: SrvState, events: seq<Event>, public: bool,
                                      verb: string, path: string, f: int, level: int)
    requires Serves(SideOf(s, public), verb, path, f, level) && KeepsRoute(events, verb, path)
    ensures Serves(SideOf(Continue(s, events), public), verb, path, f, level)
  {
    if events != [] {
      var n := |events| - 1;
      RouteStays(s, events[..n], public, verb, path, f, level);
      NextKeepsServing(Continue(s, events[..n]), events[n], public, verb, path, f, level);
    }
  }

  /** What a side answers to a request for the path of such a route: the route, exactly when the mux looks
      the path up as it stands. */
  lemma ServedIsAnswered(s: SrvState, public: bool, host: string, verb: string, path: string, f: int, level: int)
    requires SrvOk(s) && Serves(SideOf(s, public), verb, path, f, level)
    ensures Answer(SideOf(s, public).routes.table, host, verb, path)
              == (Some(UriHandler(verb, App(f), path, level)), path)
            <==> IsLookedUp(verb, path)
  {
    var t, key := SideOf(s, public).routes.table, verb + ":" + path;
    if IsLookedUp(verb, path) {
      KeyMatchesItself(t.m, key);
      LookupIsLongestReach(t.m, key, key);
      AnswerIsLongestReach(t, host, verb, path, key);
    } else {
      CleaningRedirectIsOpen(t, host, verb, path);
    }
  }

  /** From the registration on, in any run and whatever is called afterwards but the route's removal, a
      request for its path is answered by the handler that was given, at the level that was given. */
  lemma RegisteredRouteIsAnswered(events: seq<Event>, verb: string, path: string, f: int, kind: HandlerType, level: int,
                                  more: seq<Event>, public: bool, host: string)
    requires RegisterHandler(RunAll(events), verb, path, f, kind, level).1 == Done
    requires IsFor(kind, public) && KeepsRoute(more, verb, path)
    ensures var s := Continue(RegisterHandler(RunAll(events), verb, path, f, kind, level).0, more);
            Serves(SideOf(s, public), verb, path, f, level)
            && (Answer(SideOf(s, public).routes.table, host, verb, path)
                  == (Some(UriHandler(verb, App(f), path, level)), path)
                <==> verb == "CONNECT" || IsCanonical(path))
  {
    var s := RunAll(events);
    var s' := RegisterHandler(s, verb, path, f, kind, level).0;
    RunIsOk(events);
    RegisterHandlerKeepsOk(s, verb, path, f, kind, level);
    ContinueKeepsOk(s', more);
    RegistrationServes(s, verb, path, f, kind, level, public);
    RouteStays(s', more, public, verb, path, f, level);
    ServedIsAnswered(Continue(s', more), public, host, verb, path, f, level);
  }

  lemma ConfigureServes(s: SrvState, c: Settings, refused: Refusals, public: bool)
    requires Configure(s, c, refused).1 == Done && SetsStaticDir(SideOf(s, public), SettingsOf(c, public))
    ensures Serves(SideOf(Configure(s, c, refused).0, public), "GET", "/",
                   if public then ON_PUB_STATIC_SRV_URI else ON_PRIV_STATIC_SRV_URI,
                   SettingsOf(c, public).staticAccessLevel)
  {
    var f := if public then ON_PUB_STATIC_SRV_URI else ON_PRIV_STATIC_SRV_URI;
    SettingRegistersTheRoute(SideOf(s, public), SettingsOf(c, public), f);
  }

  /** The same of a static directory: once it is set, "/" is answered by the side's own static handler at
      the level configured with it, and no GET for a canonical path is left without an answer. */
  lemma StaticRouteIsAnswered(events: seq<Event>, c: Settings, refused: Refusals, more: seq<Event>, public: bool,
                              host: string, path: string)
    requires Configure(RunAll(events), c, refused).1 == Done && KeepsRoute(more, "GET", "/")
    requires (if public then c.public.staticDir else c.private.staticDir) != ""
    requires SideOf(RunAll(events), public).staticDir != SettingsOf(c, public).staticDir
    ensures var s := Continue(Configure(RunAll(events), c, refused).0, more);
            var (f, level) := if public then (ON_PUB_STATIC_SRV_URI, c.public.staticAccessLevel)
                              else (ON_PRIV_STATIC_SRV_URI, c.private.staticAccessLevel);
            var t := SideOf(s, public).routes.table;
            Answer(t, host, "GET", "/") == (Some(UriHandler("GET", App(f), "/", level)), "/")
            && (IsCanonical(path) ==> Answer(t, host, "GET", path).0.Some?)
    ensures ON_PUB_STATIC_SRV_URI != ON_PRIV_STATIC_SRV_URI
  {
    var s1 := Configure(RunAll(events), c, refused).0;
    var s := Continue(s1, more);
    var f := if public then ON_PUB_STATIC_SRV_URI else ON_PRIV_STATIC_SRV_URI;
    var level := SettingsOf(c, public).staticAccessLevel;
    RunIsOk(events);
    ConfigureKeepsOk(RunAll(events), c, refused);
    ContinueKeepsOk(s1, more);
    ConfigureServes(RunAll(events), c, refused, public);
    RouteStays(s1, more, public, "GET", "/", f, level);
    ServedIsAnswered(s, public, host, "GET", "/", f, level);
    if IsCanonical(path) {
      var k := RouteIsNeverMissed(SideOf(s, public).routes.table, host, "GET", "/", path);
    }
  }

  // ----- a static directory can be set once -----

  /** A static directory can be set once. After a call that set one, and any further calls that do not
      remove the route for `GET /`, a configuration panics exactly when it changes that side's
      directory to a non-empty one, or the other side clashes; so the directory can be cleared, and
      never set again. */
  lemma StaticDirCanBeSetOnce(s: SrvState, c1: Settings, refused1: Refusals, events: seq<Event>,
                              c2: Settings, refused2: Refusals)
    requires Configure(s, c1, refused1).1 == Done && KeepsRoute(events, "GET", "/")
    ensures var s2 := Continue(Configure(s, c1, refused1).0, events);
            var panics := Configure(s2, c2, refused2).1 == Panic;
            (SetsStaticDir(s.private, c1.private) ==>
              (panics <==> SetsStaticDir(s2.private, c2.private) || StaticRouteClash(s2.public, c2.public)))
            && (SetsStaticDir(s.public, c1.public) ==>
              (panics <==> SetsStaticDir(s2.public, c2.public) || StaticRouteClash(s2.private, c2.private)))
  {
    var s1 := Configure(s, c1, refused1).0;
    var s2 := Continue(s1, events);
    ConfigurePanicsExactlyWhen(s2, c2, refused2);
    StaticRouteLasts(s, c1, refused1, events, false);
    StaticRouteLasts(s, c1, refused1, events, true);
  }

  lemma StaticRouteLasts(s: SrvState, c: Settings, refused: Refusals, events: seq<Event>, public: bool)
    requires Configure(s, c, refused).1 == Done && KeepsRoute(events, "GET", "/")
    ensures SetsStaticDir(SideOf(s, public), SettingsOf(c, public)) ==>
              Explicit(SideOf(Continue(Configure(s, c, refused).0, events), public).routes.table.m, MakeKey("GET", "/"))
  {
    if SetsStaticDir(SideOf(s, public), SettingsOf(c, public)) {
      ConfigureServes(s, c, refused, public);
      var f := if public then ON_PUB_STATIC_SRV_URI else ON_PRIV_STATIC_SRV_URI;
      RouteStays(Configure(s, c, refused).0, events, public, "GET", "/", f, SettingsOf(c, public).staticAccessLevel);
      assert MakeKey("GET", "/") == "GET" + ":" + "/";
    }
  }

  // ----- which addresses are open -----

  /** An address is open after a call that restarts this side exactly when it is wanted for some protocol
      and was open before or an attempt on it succeeds. */
  predicate OpenAfter(open: bool, http: bool, tls: bool, refused: Refusals, a: Addr) {
    (http || tls) && (open || (http && (a, false) !in refused) || (tls && (a, true) !in refused))
  }

  /** A call restarts a side whose settings it changes, or all when forced. */
  predicate Restarts(port: int, tlsPort: int, staticDir: string, c: SideSettings, force: bool) {
    port != c.port || tlsPort != c.tlsPort || staticDir != c.staticDir || force
  }

  /** Address by address, what a call that does not panic leaves open: on the private side the local
      addresses in the private ranges that are not ignored, on the public side the others, on the ports
      given, as far as the system lets it; on a side that is not restarted, what was open. */
  lemma ConfigureOpensExactly(s: SrvState, c: Settings, refused: Refusals, a: Addr)
    requires Configure(s, c, refused).1 == Done
    ensures var s' := Configure(s, c, refused).0;
            var d, e := s.private, s.public;
            (a in s'.private.keys <==>
              if Restarts(d.port, d.tlsPort, d.staticDir, c.private, c.forceRestart)
              then OpenAfter(a in d.keys, WantedPrivate(s.localAddrs, c.ignoreAddrs, c.private.port, a),
                             WantedPrivate(s.localAddrs, c.ignoreAddrs, c.private.tlsPort, a), refused, a)
              else a in d.keys)
            && (a in s'.public.keys <==>
              if Restarts(e.port, e.tlsPort, e.staticDir, c.public, c.forceRestart)
              then OpenAfter(a in e.keys, WantedPublic(s.localAddrs, c.public.port, a),
                             WantedPublic(s.localAddrs, c.public.tlsPort, a), refused, a)
              else a in e.keys)
  {
    SettingsApplied(s, c);
    ListsAreWanted(s.localAddrs, c.ignoreAddrs, c.private.port, a);
    ListsAreWanted(s.localAddrs, c.ignoreAddrs, c.private.tlsPort, a);
    ListsAreWanted(s.localAddrs, c.ignoreAddrs, c.public.port, a);
    ListsAreWanted(s.localAddrs, c.ignoreAddrs, c.public.tlsPort, a);
  }

  /** So a forced call with nothing refused opens every such address and no other. */
  lemma ForcedConfigureOpensExactly(s: SrvState, c: Settings, ip: Ip, port: int)
    requires Configure(s, c, {}).1 == Done && c.forceRestart
    ensures var s' := Configure(s, c, {}).0;
            (Addr(ip, port) in s'.private.keys <==>
              ip in s.localAddrs && ip !in c.ignoreAddrs && InPrivateRanges(ip)
              && port > 0 && (port == c.private.port || port == c.private.tlsPort))
            && (Addr(ip, port) in s'.public.keys <==>
              ip in s.localAddrs && !InPrivateRanges(ip)
              && port > 0 && (port == c.public.port || port == c.public.tlsPort))
  {
    ConfigureOpensExactly(s, c, {}, Addr(ip, port));
  }

  /** The addresses that count are those of the last enumeration: what an earlier one found is closed. */
  lemma EnumerationIsForgotten(s: SrvState, earlier: seq<Ip>, later: seq<Ip>, c: Settings, ip: Ip, port: int)
    requires c.forceRestart && ip !in later
    requires Configure(Continue(s, [EvLocalAddrs(earlier), EvLocalAddrs(later)]), c, {}).1 == Done
    ensures var s' := Configure(Continue(s, [EvLocalAddrs(earlier), EvLocalAddrs(later)]), c, {}).0;
            Addr(ip, port) !in s'.private.keys && Addr(ip, port) !in s'.public.keys
  {
    var events := [EvLocalAddrs(earlier), EvLocalAddrs(later)];
    assert events[..1] == [events[0]] && [events[0]][..0] == [];
    var s2 := Continue(s, events);
    assert s2.localAddrs == later;
    ForcedConfigureOpensExactly(s2, c, ip, port);
  }

  // ----- reconciliation -----

  /** With nothing refused and a restart forced, the open addresses are exactly the wanted ones, and
      the same call again leaves the addresses as they are, whatever is refused then. */
  lemma ForcedConfigureReconciles(s: SrvState, c: Settings, refused: Refusals)
    requires c.forceRestart && Configure(s, c, {}).1 == Done
    ensures var s1 := Configure(s, c, {}).0;
            s1.private.keys == PrivateList(s1.localAddrs, c.ignoreAddrs, c.private.port)
                                + PrivateList(s1.localAddrs, c.ignoreAddrs, c.private.tlsPort)
            && s1.public.keys == PublicList(s1.localAddrs, c.public.port) + PublicList(s1.localAddrs, c.public.tlsPort)
            && Configure(s1, c, refused) == (s1, Done)
  {
    var a := ApplySettings(s, c).0;
    var http := PrivateList(a.localAddrs, c.ignoreAddrs, c.private.port);
    var tls := PrivateList(a.localAddrs, c.ignoreAddrs, c.private.tlsPort);
    UnrefusedReachesAll(a.private.keys, http, tls);
    KeepsWanted(http + tls, http, tls, refused);
    var publicHttp, publicTLS := PublicList(a.localAddrs, c.public.port), PublicList(a.localAddrs, c.public.tlsPort);
    UnrefusedReachesAll(a.public.keys, publicHttp, publicTLS);
    KeepsWanted(publicHttp + publicTLS, publicHttp, publicTLS, refused);
  }

  /** An address that a configuration tells the server to ignore stays open on the private side exactly
      when it was open and neither the private settings changed nor a restart was forced: ignoring by
      itself closes nothing. */
  lemma IgnoredStaysOpenExactlyWhen(s: SrvState, c: Settings, refused: Refusals, a: Addr)
    requires Configure(s, c, refused).1 == Done && a.ip in c.ignoreAddrs
    ensures a in Configure(s, c, refused).0.private.keys <==>
            a in s.private.keys && !Changed(s.private, c.private) && !c.forceRestart
  {
    var s1 := ApplySettings(s, c).0;
    assert a !in PrivateList(s1.localAddrs, c.ignoreAddrs, s1.private.port);
    assert a !in PrivateList(s1.localAddrs, c.ignoreAddrs, s1.private.tlsPort);
  }

  /** Such a run: for every private address and port, the address is opened, then ignored, and is
      still open. */
  lemma IgnoredStaysOpen(ip: Ip, port: int)
    requires InPrivateNets(ip) && port > 0
    ensures var plain := SideSettings(port, 0, "", 0);
            var first := Settings(plain, SideSettings(0, 0, "", 0), [], None, true);
            var later := first.(ignoreAddrs := [ip], forceRestart := false);
            var run := [EvLocalAddrs([ip]), EvConfigure(first, {}), EvConfigure(later, {})];
            Addr(ip, port) in RunAll(run).private.keys && ip in RunAll(run).ignoreAddrs
  {
    var plain := SideSettings(port, 0, "", 0);
    var first := Settings(plain, SideSettings(0, 0, "", 0), [], None, true);
    var later := first.(ignoreAddrs := [ip], forceRestart := false);
    var run := [EvLocalAddrs([ip]), EvConfigure(first, {}), EvConfigure(later, {})];
    var s1 := NEW_SERVER.(localAddrs := [ip]);
    var s2 := Configure(s1, first, {}).0;
    assert run[..2] == [run[0], run[1]] && run[..2][..1] == [run[0]] && [run[0]][..0] == [];
    assert RunAll([run[0]]) == s1;
    assert RunAll(run[..2]) == s2;
    assert Addr(ip, port) in PrivateList([ip], [], port);
    assert Addr(ip, port) in s2.private.keys;
    IgnoredStaysOpenExactlyWhen(s2, later, {}, Addr(ip, port));
  }
}
