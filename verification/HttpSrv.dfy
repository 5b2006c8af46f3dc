/** The server object of net.go. What its struct holds twice, once for each side, is a class here,
    and the server has two objects of it. */
module HttpServer {
  import opened Options
  import opened Cidr
  import opened Paths
  import opened Routes
  import opened Mux
  import opened Listeners
  import opened ServerState
  import opened Sorting

  class HttpSide {
    var port: int
    var tlsPort: int
    var staticDir: string
    var handlers: map<string, UriHandler>
    var listeners: ListenerMap
    const mux: XMux
    /** Every listener this side ever opened. */
    ghost var everOpened: set<SrvAppListener>

    ghost function State(): SideState
      reads this, mux
    {
      SideState(port, tlsPort, staticDir, Side(handlers, mux.State()), listeners.Keys)
    }

    /** The side's open listeners are exactly those in its map: none leaked, none closed but kept. */
    ghost predicate ListenersOk()
      reads this, everOpened, listeners.Values
    {
      MapOk(listeners) && listeners.Values <= everOpened
      && forall l :: l in everOpened && !l.closing ==> l in listeners.Values
    }

    ghost predicate Valid()
      reads this, mux, everOpened, listeners.Values
    {
      SideOk(State().routes) && ListenersOk()
    }

    constructor ()
      ensures Valid() && State() == NEW_SIDE && everOpened == {} && fresh(mux)
    {
      port, tlsPort, staticDir, handlers, listeners, everOpened := 0, 0, "", map[], map[], {};
      mux := new XMux();
    }

    /** One case of `registerHandler`: the handler map first, then the mux. */
    method Register(u: Registration) returns (r: Outcome)
      requires Valid() && Rooted(u.pattern) && u.handler.App?
      modifies this`handlers, mux
      ensures Valid() && (State(), r) == RegisterOn(old(State()), u)
    {
      RegisterSideKeepsOk(State().routes, u);
      handlers := handlers[MakeKey(u.verb, u.pattern) := u];
      r := mux.Handle(u);
    }

    method Remove(verb: string, path: string)
      requires Valid()
      modifies this`handlers, mux
      ensures Valid() && State() == old(State()).(routes := RemoveSide(old(State()).routes, verb, path))
    {
      RemoveSideKeepsOk(State().routes, verb, path);
      handlers := handlers - {MakeKey(verb, path)};
      mux.RemoveHandleFunc(verb, path);
    }

    /** One side's part of `getNetInfo`: the explicit routes, each once, in ascending order. */
    method Listing() returns (list: seq<string>)
      requires Valid()
      ensures InByteOrder(list) && forall k :: k in list <==> Explicit(mux.m, k)
    {
      list := SortedKeys(handlers);
      assert forall k :: k in ExplicitKeys(mux.m) <==> Explicit(mux.m, k);
    }

    /** One side's part of the settings in `Configure`. */
    method Apply(c: SideSettings, f: int) returns (changed: bool, r: Outcome)
      requires Valid()
      modifies this`port, this`tlsPort, this`staticDir, this`handlers, mux
      ensures Valid() && (State(), r) == ApplySide(old(State()), c, f)
      ensures r == Done ==> changed == Changed(old(State()), c)
    {
      changed, r := false, Done;
      if port != c.port {
        port := c.port;
        changed := true;
      }
      if tlsPort != c.tlsPort {
        tlsPort := c.tlsPort;
        changed := true;
      }
      if staticDir != c.staticDir {
        staticDir := c.staticDir;
        if c.staticDir != "" {
          r := Register(NewHandler("GET", "/", f, c.staticAccessLevel));
        }
        changed := true;
      }
    }

    /** One side's part of the listing of servers. The map's key is the text of the address. */
    method Servers(text: Addr -> string) returns (list: seq<string>)
      requires forall a, b :: a in listeners && b in listeners && text(a) == text(b) ==> a == b
      ensures InByteOrder(list) && |list| == |listeners|
      ensures forall s :: s in list <==> exists a :: a in listeners && text(a) == s
    {
      var byText := map a | a in listeners.Keys :: text(a) := a;
      list := SortedKeys(byText);
      assert byText.Keys == set a | a in listeners.Keys :: text(a);
      SameSize(listeners.Keys, byText.Keys, text);
      assert |listeners| == |listeners.Keys| && |byText| == |byText.Keys|;
    }

    /** The restart of this side, given the addresses it wants. */
    method RestartHttp(net: NetStack, http: set<Addr>, tls: set<Addr>, tlsCfg: Option<int>, refused: Refusals)
      requires Valid() && listeners.Keys <= net.bound && (net.bound - listeners.Keys) !! (http + tls)
      modifies this`listeners, this`everOpened, net, listeners.Values
      ensures Valid() && State() == RestartSide(old(State()), http, tls, refused)
      ensures Reconciled(old(listeners), http, tls, tlsCfg, refused, listeners)
      ensures old(everOpened) <= everOpened && fresh(everOpened - old(everOpened))
      ensures forall a :: a in listeners && a !in old(listeners) ==> fresh(listeners[a])
      ensures net.bound == old(net.bound) - old(listeners.Keys) + listeners.Keys
    {
      listeners, everOpened := Restart(net, listeners, http, tls, tlsCfg, refused, everOpened);
    }
  }

  /** A one-to-one text gives as many texts as addresses. */
  lemma {:induction false} SameSize(addrs: set<Addr>, texts: set<string>, text: Addr -> string)
    requires forall a, b :: a in addrs && b in addrs && text(a) == text(b) ==> a == b
    requires texts == set a | a in addrs :: text(a)
    ensures |texts| == |addrs|
    decreases addrs
  {
    if addrs != {} {
      var a :| a in addrs;
      assert texts - {text(a)} == set b | b in addrs - {a} :: text(b);
      SameSize(addrs - {a}, texts - {text(a)}, text);
    }
  }

  /** What a side's listeners become: reconciled with what it wants if it restarts, the same otherwise. */
  ghost predicate RestartedOrKept(restarts: bool, earlier: ListenerMap, http: set<Addr>, tls: set<Addr>,
                                  tlsCfg: Option<int>, refused: Refusals, after: ListenerMap)
  {
    if restarts then Reconciled(earlier, http, tls, tlsCfg, refused, after) else after == earlier
  }

  class HttpSrv {
    const privateSide: HttpSide
    const publicSide: HttpSide
    const net: NetStack
    var ignoreAddrs: seq<Ip>
    var tlsCfg: Option<int>
    var localAddrs: seq<Ip>

    ghost function State(): SrvState
      reads this, privateSide, publicSide, privateSide.mux, publicSide.mux
    {
      SrvState(privateSide.State(), publicSide.State(), ignoreAddrs, tlsCfg, localAddrs)
    }

    /** The sides share no object, and the addresses the system has bound are those of their
        listeners. */
    ghost predicate Valid()
      reads this, privateSide, publicSide, privateSide.mux, publicSide.mux, net
      reads privateSide.everOpened, publicSide.everOpened, privateSide.listeners.Values, publicSide.listeners.Values
    {
      privateSide != publicSide && privateSide.mux != publicSide.mux && privateSide.everOpened !! publicSide.everOpened
      && privateSide.Valid() && publicSide.Valid() && AddrsOk(State())
      && net.bound == privateSide.listeners.Keys + publicSide.listeners.Keys
    }

    constructor ()
      ensures Valid() && State() == NEW_SERVER
    {
      ignoreAddrs, tlsCfg, localAddrs := [], None, [];
      privateSide := new HttpSide();
      publicSide := new HttpSide();
      net := new NetStack();
    }

    method RegisterHandler(verb: string, path: string, f: int, kind: HandlerType, level: int) returns (r: Outcome)
      requires Valid()
      modifies privateSide`handlers, publicSide`handlers, privateSide.mux, publicSide.mux
      ensures Valid() && (State(), r) == ServerState.RegisterHandler(old(State()), verb, path, f, kind, level)
    {
      RegisterHandlerKeepsOk(State(), verb, path, f, kind, level);
      if |path| == 0 || path[0] != '/' {
        return Panic;
      }
      var uriHandler := NewHandler(verb, path, f, level);
      match kind
      case PrivateHandler =>
        r := privateSide.Register(uriHandler);
      case PublicHandler =>
        r := publicSide.Register(uriHandler);
      case AllHandler =>
        r := RegisterBoth(uriHandler);
      case UnknownHandler =>
        r := Done;
    }

    /** The case of `registerHandler` for both sides. */
    method RegisterBoth(u: Registration) returns (r: Outcome)
      requires Valid() && Rooted(u.pattern) && u.handler.App?
      modifies privateSide`handlers, publicSide`handlers, privateSide.mux, publicSide.mux
      ensures Valid()
      ensures var (private, p) := RegisterOn(old(State().private), u);
              var (public, q) := RegisterOn(old(State().public), u);
              State() == old(State()).(private := private, public := if p == Panic then old(State().public) else public)
              && r == if p == Panic then Panic else q
    {
      r := privateSide.Register(u);
      if r == Panic {
        return;
      }
      r := publicSide.Register(u);
    }

    method RemoveHandler(verb: string, path: string)
      requires Valid()
      modifies privateSide`handlers, publicSide`handlers, privateSide.mux, publicSide.mux
      ensures Valid() && State() == ServerState.RemoveHandler(old(State()), verb, path)
    {
      RemoveHandlerKeepsOk(State(), verb, path);
      privateSide.Remove(verb, path);
      publicSide.Remove(verb, path);
    }

    /** `getNetInfo`: each side's explicit routes and open addresses, each once and sorted. `text` is how
        an address is written, which no two addresses share. */
    method GetNetInfo(text: Addr -> string)
      returns (privateHandlers: seq<string>, privateServers: seq<string>,
               publicHandlers: seq<string>, publicServers: seq<string>)
      requires Valid()
      requires forall a, b :: text(a) == text(b) ==> a == b
      ensures InByteOrder(privateHandlers) && forall k :: k in privateHandlers <==> Explicit(privateSide.mux.m, k)
      ensures InByteOrder(publicHandlers) && forall k :: k in publicHandlers <==> Explicit(publicSide.mux.m, k)
      ensures InByteOrder(privateServers) && |privateServers| == |privateSide.listeners|
      ensures forall s :: s in privateServers <==> exists a :: a in privateSide.listeners && text(a) == s
      ensures InByteOrder(publicServers) && |publicServers| == |publicSide.listeners|
      ensures forall s :: s in publicServers <==> exists a :: a in publicSide.listeners && text(a) == s
    {
      privateHandlers := privateSide.Listing();
      privateServers := privateSide.Servers(text);
      publicHandlers := publicSide.Listing();
      publicServers := publicSide.Servers(text);
    }

    /** `netEnumAddrs` replaces the list of local addresses. */
    method SetLocalAddrs(addrs: seq<Ip>)
      requires Valid()
      modifies this`localAddrs
      ensures Valid() && State() == old(State()).(localAddrs := addrs)
    {
      localAddrs := addrs;
    }

    /** `isPrivateNetwork`: the ignored addresses first, then the private networks. */
    method IsPrivateNetwork(ip: Ip) returns (r: bool)
      ensures r == (ip !in ignoreAddrs && InPrivateRanges(ip))
    {
      for i := 0 to |ignoreAddrs|
        invariant ip !in ignoreAddrs[..i]
      {
        if ignoreAddrs[i] == ip {
          return false;
        }
      }
      assert ignoreAddrs[..|ignoreAddrs|] == ignoreAddrs;
      r := ScanPrivateNets(ip);
    }

    /** The first loop of `restartPrivateHttp`. */
    method PrivateLists() returns (httpList: set<Addr>, tlsList: set<Addr>)
      ensures httpList == PrivateList(localAddrs, ignoreAddrs, privateSide.port)
      ensures tlsList == PrivateList(localAddrs, ignoreAddrs, privateSide.tlsPort)
    {
      httpList, tlsList := {}, {};
      for x := 0 to |localAddrs|
        invariant httpList == PrivateList(localAddrs[..x], ignoreAddrs, privateSide.port)
        invariant tlsList == PrivateList(localAddrs[..x], ignoreAddrs, privateSide.tlsPort)
      {
        var ip := localAddrs[x];
        ListsGrow(localAddrs, ignoreAddrs, privateSide.port, x);
        ListsGrow(localAddrs, ignoreAddrs, privateSide.tlsPort, x);
        PrivateRanges(ip);
        var private := IsPrivateNetwork(ip);
        if private && privateSide.port > 0 {
          httpList := httpList + {Addr(ip, privateSide.port)};
        }
        if private && privateSide.tlsPort > 0 {
          tlsList := tlsList + {Addr(ip, privateSide.tlsPort)};
        }
      }
      assert localAddrs[..|localAddrs|] == localAddrs;
    }

    /** The first loop of `restartPublicHttp`, which ignores nothing. */
    method PublicLists() returns (httpList: set<Addr>, tlsList: set<Addr>)
      ensures httpList == PublicList(localAddrs, publicSide.port)
      ensures tlsList == PublicList(localAddrs, publicSide.tlsPort)
    {
      httpList, tlsList := {}, {};
      for x := 0 to |localAddrs|
        invariant httpList == PublicList(localAddrs[..x], publicSide.port)
        invariant tlsList == PublicList(localAddrs[..x], publicSide.tlsPort)
      {
        var ip := localAddrs[x];
        ListsGrow(localAddrs, ignoreAddrs, publicSide.port, x);
        ListsGrow(localAddrs, ignoreAddrs, publicSide.tlsPort, x);
        PrivateRanges(ip);
        var local := ScanPrivateNets(ip);
        if !local && publicSide.port > 0 {
          httpList := httpList + {Addr(ip, publicSide.port)};
        }
        if !local && publicSide.tlsPort > 0 {
          tlsList := tlsList + {Addr(ip, publicSide.tlsPort)};
        }
      }
      assert localAddrs[..|localAddrs|] == localAddrs;
    }

    method RestartPrivateHttp(refused: Refusals)
      requires Valid()
      modifies privateSide`listeners, privateSide`everOpened, net, privateSide.listeners.Values
      ensures Valid() && State() == RestartPrivate(old(State()), refused)
      ensures Reconciled(old(privateSide.listeners), PrivateList(localAddrs, ignoreAddrs, privateSide.port),
                         PrivateList(localAddrs, ignoreAddrs, privateSide.tlsPort),
                         tlsCfg, refused, privateSide.listeners)
    {
      var httpList, tlsList := PrivateLists();
      RestartsKeepOk(State(), refused);
      PrivateListsApart(State());
      assert privateSide.listeners.Values !! publicSide.everOpened;
      privateSide.RestartHttp(net, httpList, tlsList, tlsCfg, refused);
      assert publicSide.Valid();
    }

    method RestartPublicHttp(refused: Refusals)
      requires Valid()
      modifies publicSide`listeners, publicSide`everOpened, net, publicSide.listeners.Values
      ensures Valid() && State() == RestartPublic(old(State()), refused)
      ensures Reconciled(old(publicSide.listeners), PublicList(localAddrs, publicSide.port),
                         PublicList(localAddrs, publicSide.tlsPort), tlsCfg, refused, publicSide.listeners)
    {
      var httpList, tlsList := PublicLists();
      RestartsKeepOk(State(), refused);
      PublicListsApart(State());
      assert publicSide.listeners.Values !! privateSide.everOpened;
      publicSide.RestartHttp(net, httpList, tlsList, tlsCfg, refused);
      assert privateSide.Valid();
    }

    /** The private part of the settings. */
    method ConfigurePrivate(c: Settings) returns (changed: bool, r: Outcome)
      requires Valid()
      modifies this`ignoreAddrs, privateSide.mux
      modifies privateSide`port, privateSide`tlsPort, privateSide`staticDir, privateSide`handlers
      ensures Valid() && r == ApplySide(old(State().private), c.private, ON_PRIV_STATIC_SRV_URI).1
      ensures State() == old(State()).(ignoreAddrs := c.ignoreAddrs,
                                       private := ApplySide(old(State().private), c.private, ON_PRIV_STATIC_SRV_URI).0)
      ensures r == Done ==> changed == Changed(old(State().private), c.private)
    {
      ignoreAddrs := c.ignoreAddrs;
      changed, r := privateSide.Apply(c.private, ON_PRIV_STATIC_SRV_URI);
      assert publicSide.Valid();
    }

    /** The public part of the settings. */
    method ConfigurePublic(c: Settings) returns (changed: bool, r: Outcome)
      requires Valid()
      modifies publicSide.mux
      modifies publicSide`port, publicSide`tlsPort, publicSide`staticDir, publicSide`handlers
      ensures Valid() && r == ApplySide(old(State().public), c.public, ON_PUB_STATIC_SRV_URI).1
      ensures State() == old(State()).(public := ApplySide(old(State().public), c.public, ON_PUB_STATIC_SRV_URI).0)
      ensures r == Done ==> changed == Changed(old(State().public), c.public)
    {
      changed, r := publicSide.Apply(c.public, ON_PUB_STATIC_SRV_URI);
      assert privateSide.Valid();
    }

    /** `configureTLS`, as far as the listeners opened later see it. */
    method ConfigureTLS(certs: Option<int>)
      requires Valid()
      modifies this`tlsCfg
      ensures Valid() && State() == old(State()).(tlsCfg := certs)
    {
      tlsCfg := certs;
    }

    /** The first half of `Configure`: the settings and the static routes. */
    method ConfigureSettings(c: Settings) returns (privateChanged: bool, publicChanged: bool, r: Outcome)
      requires Valid()
      modifies this`ignoreAddrs, this`tlsCfg, privateSide.mux, publicSide.mux
      modifies privateSide`port, privateSide`tlsPort, privateSide`staticDir, privateSide`handlers
      modifies publicSide`port, publicSide`tlsPort, publicSide`staticDir, publicSide`handlers
      ensures Valid() && (State(), r) == ApplySettings(old(State()), c)
      ensures r == Done ==> privateChanged == Changed(old(State().private), c.private)
                            && publicChanged == Changed(old(State().public), c.public)
    {
      publicChanged := false;
      privateChanged, r := ConfigurePrivate(c);
      if r == Panic {
        return;
      }
      publicChanged, r := ConfigurePublic(c);
      if r == Done {
        ConfigureTLS(c.certs);
      }
    }

    /** The second half: restart the sides that changed. */
    method RestartSides(privateToo: bool, publicToo: bool, refused: Refusals)
      requires Valid()
      modifies privateSide`listeners, privateSide`everOpened, publicSide`listeners, publicSide`everOpened, net
      modifies privateSide.listeners.Values, publicSide.listeners.Values
      ensures Valid()
      ensures var s1 := if privateToo then RestartPrivate(old(State()), refused) else old(State());
              State() == if publicToo then RestartPublic(s1, refused) else s1
      ensures RestartedOrKept(privateToo, old(privateSide.listeners),
                              PrivateList(localAddrs, ignoreAddrs, privateSide.port),
                              PrivateList(localAddrs, ignoreAddrs, privateSide.tlsPort),
                              tlsCfg, refused, privateSide.listeners)
      ensures RestartedOrKept(publicToo, old(publicSide.listeners), PublicList(localAddrs, publicSide.port),
                              PublicList(localAddrs, publicSide.tlsPort), tlsCfg, refused, publicSide.listeners)
    {
      if privateToo {
        RestartPrivateHttp(refused);
      }
      if publicToo {
        RestartPublicHttp(refused);
      }
    }

    /** The state as the value-level `Configure` has it, and the listener objects: on a side that restarts
        the wanted ones are the same objects, and on any other side all are. */
    method Configure(c: Settings, refused: Refusals) returns (r: Outcome)
      requires Valid()
      modifies this`ignoreAddrs, this`tlsCfg, privateSide, publicSide, privateSide.mux, publicSide.mux, net
      modifies privateSide.listeners.Values, publicSide.listeners.Values
      ensures Valid() && (State(), r) == ServerState.Configure(old(State()), c, refused)
      ensures RestartedOrKept(r == Done && (Changed(old(State().private), c.private) || c.forceRestart),
                              old(privateSide.listeners), PrivateList(old(localAddrs), c.ignoreAddrs, c.private.port),
                              PrivateList(old(localAddrs), c.ignoreAddrs, c.private.tlsPort),
                              c.certs, refused, privateSide.listeners)
      ensures RestartedOrKept(r == Done && (Changed(old(State().public), c.public) || c.forceRestart),
                              old(publicSide.listeners), PublicList(old(localAddrs), c.public.port),
                              PublicList(old(localAddrs), c.public.tlsPort),
                              c.certs, refused, publicSide.listeners)
    {
      var privateChanged, publicChanged;
      privateChanged, publicChanged, r := ConfigureSettings(c);
      if r == Done {
        SettingsApplied(old(State()), c);
        assert State() == ApplySettings(old(State()), c).0;
        RestartSides(privateChanged || c.forceRestart, publicChanged || c.forceRestart, refused);
      }
    }
  }
}
