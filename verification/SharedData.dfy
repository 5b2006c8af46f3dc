/** What the functions of the server do to the data that goroutines share, and which locks they hold
    when they do it. */
module SharedData {
  import opened Locks
  import opened LockCalls

  /** The data that goroutines share. */
  datatype Data =
    | AccessRights | NetIdText | ServerConfig | MuxFlags | LocalAddrList | PrivateRoutes | PublicRoutes
    | GeoSettings | GeoAnswers | GeoTimes | RequestRing | LogServices | LogEnabled

  /** The lock that guards it. */
  function Guard(d: Data): Lock {
    match d
    case AccessRights => NetCfg
    case NetIdText => NetCfg
    case ServerConfig => Config
    case MuxFlags => Config
    case LocalAddrList => LocalAddrs
    case PrivateRoutes => PrivateMux
    case PublicRoutes => PublicMux
    case GeoSettings => GeoCfg
    case GeoAnswers => GeoCfg
    case GeoTimes => GeoCfg
    case RequestRing => Ips
    case LogServices => Log
    case LogEnabled => Log
  }

  /** A step of a body: a lock taken or given back, or shared data read or written. */
  datatype Item = Do(act: Act) | Use(data: Data, mode: Mode)

  type Body = seq<Item>

  // ----- what each function does -----

  function If(c: bool, body: Body): Body {
    if c then body else []
  }

  function Section(l: Lock, mode: Mode, body: Body): Body {
    [Do(Acquire(l, mode))] + body + [Do(Release(l))]
  }

  function MuxBody(registersPrivate: bool, registersPublic: bool): Body {
    If(registersPrivate, Section(PrivateMux, Write, [Use(PrivateRoutes, Write)]))
    + If(registersPublic, Section(PublicMux, Write, [Use(PublicRoutes, Write)]))
  }

  /** The fields of the server first; the flags of the muxes, which are no part of their tables, when no
      registration has panicked. */
  function ConfigureBody(registersPrivate: bool, registersPublic: bool, restarts: bool): Body {
    Section(Config, Write,
            [Use(ServerConfig, Write)]
            + (MuxBody(registersPrivate, registersPublic)
               + If(restarts, [Use(MuxFlags, Write)] + Section(LocalAddrs, Write, [Use(LocalAddrList, Read)]))))
  }

  /** The times of the answers are read, and a stale one dropped, outside the lock. */
  function TimesBody(known: bool, stale: bool): Body {
    If(known, [Use(GeoTimes, Read)] + If(stale, [Use(GeoTimes, Write)]))
  }

  function FetchBody(replied: bool): Body {
    Section(GeoCfg, Read, [Use(GeoSettings, Read)])
    + If(replied, Section(GeoCfg, Write, [Use(GeoAnswers, Write)] + [Use(GeoTimes, Write)]))
  }

  function GeoBody(isPrivate: bool, known: bool, stale: bool, replied: bool): Body {
    Section(Config, Read, [Use(ServerConfig, Read)])
    + If(!isPrivate, Section(GeoCfg, Read, [Use(GeoAnswers, Read)])
                     + (TimesBody(known, stale) + If(!(known && !stale), FetchBody(replied))))
  }

  function RoutesOf(public: bool): Data {
    if public then PublicRoutes else PrivateRoutes
  }

  /** The flags of the mux are read before anything is locked. */
  function EntryBody(public: bool): Body {
    [Use(MuxFlags, Read)]
    + Section(if public then PublicMux else PrivateMux, Read, [Use(RoutesOf(public), Read)])
    + Section(NetCfg, Read, [Use(AccessRights, Read)])
    + Section(GeoCfg, Read, [Use(GeoSettings, Read)])
  }

  function ServeBody(public: bool, geoChecked: bool, geo: Body): Body {
    EntryBody(public) + If(geoChecked, geo + Section(GeoCfg, Read, [Use(GeoSettings, Read)]))
  }

  /** A lookup of a name in the global logger, and what is done to the service found; for a name that is
      not there, the nested message looks up its own. */
  function LoggerBody(found: Body, known: bool): Body {
    Section(Log, Read, [Use(LogServices, Read)]
                       + if known then found else Section(Log, Read, [Use(LogServices, Read)]))
  }

  function BodyOf(c: Call): Body {
    match c
    case CfgNet(configures, private, public, restarts) =>
      Section(NetCfg, Write, [Use(AccessRights, Write)] + If(configures, ConfigureBody(private, public, restarts)))
    case Configure(private, public, restarts) => ConfigureBody(private, public, restarts)
    case RegisterHandler(private, public) =>
      Section(Config, Write, [Use(ServerConfig, Write)] + MuxBody(private, public))
    case RemoveHandler => Section(Config, Write, [Use(ServerConfig, Write)] + MuxBody(true, true))
    case Shutdown => Section(Config, Write, [Use(ServerConfig, Read)])
    case ReadConfig => Section(Config, Read, [Use(ServerConfig, Read)])
    case NetEnumAddrs => Section(LocalAddrs, Write, [Use(LocalAddrList, Write)])
    case LocalAddresses => Section(LocalAddrs, Read, [Use(LocalAddrList, Read)])
    case GetAccessLevel => Section(NetCfg, Read, [Use(AccessRights, Read)])
    case NetId => Section(NetCfg, Write, [Use(NetIdText, Read)])
    case Lookup(public) => Section(if public then PublicMux else PrivateMux, Read, [Use(RoutesOf(public), Read)])
    case GeoResolve(isPrivate, known, stale, replied) => GeoBody(isPrivate, known, stale, replied)
    case GeoConfigChange => Section(GeoCfg, Write, [Use(GeoSettings, Write)])
    case ServeHttp(public, geoChecked, isPrivate, known, stale, replied) =>
      ServeBody(public, geoChecked, GeoBody(isPrivate, known, stale, replied))
    case IpsRecord => Section(Ips, Write, [Use(RequestRing, Write)])
    // the length of the ring is asked for before the lock is taken
    case IpsRead => [Use(RequestRing, Read)] + Section(Ips, Read, [Use(RequestRing, Read)])
    case LogTo(known) => LoggerBody([Use(LogEnabled, Read)], known)
    case SetLogsEnabled(known) => LoggerBody([Use(LogEnabled, Write)], known)
    case SetFlushIntervalSec(known) => LoggerBody([], known)
    case ReadLogs => Section(Log, Read, [Use(LogServices, Read)])
    case ChangeLogs => Section(Log, Write, [Use(LogServices, Write)])
  }

  /** What it does to the locks alone. */
  function Erase(b: Body): seq<Act> {
    if b == [] then [] else (if b[0].Do? then [b[0].act] else []) + Erase(b[1..])
  }

  lemma {:induction false} EraseConcat(a: Body, b: Body)
    ensures Erase(a + b) == Erase(a) + Erase(b)
  {
    if a == [] {
      assert a + b == b;
    } else {
      assert (a + b)[1..] == a[1..] + b;
      EraseConcat(a[1..], b);
    }
  }

  // ----- what it uses, and under which locks -----

  datatype Access = Access(data: Data, mode: Mode, held: map<Lock, Mode>)

  /** The accesses of a body that begins with these locks held. */
  function Uses(held: map<Lock, Mode>, b: Body): set<Access>
    decreases |b|
  {
    if b == [] then {}
    else match b[0]
      case Use(d, mode) => {Access(d, mode, held)} + Uses(held, b[1..])
      case Do(act) => Uses(Holding(held, [act]), b[1..])
  }

  lemma EraseFirst(b: Body)
    requires b != []
    ensures b[0].Do? ==> Erase(b) == [b[0].act] + Erase(b[1..])
    ensures b[0].Use? ==> Erase(b) == Erase(b[1..])
  {
  }

  lemma {:induction false} UsesConcat(held: map<Lock, Mode>, a: Body, b: Body)
    ensures Uses(held, a + b) == Uses(held, a) + Uses(Holding(held, Erase(a)), b)
    decreases |a|
  {
    if a == [] {
      assert a + b == b;
    } else {
      assert (a + b)[1..] == a[1..] + b;
      EraseFirst(a);
      if a[0].Do? {
        HoldingConcat(held, [a[0].act], Erase(a[1..]));
        UsesConcat(Holding(held, [a[0].act]), a[1..], b);
      } else {
        UsesConcat(held, a[1..], b);
      }
    }
  }

  /** What a body does to the locks, which it gives back, and to the data. */
  ghost predicate Does(held: map<Lock, Mode>, b: Body, acts: seq<Act>, uses: set<Access>) {
    Erase(b) == acts && Uses(held, b) == uses && Holding(held, acts) == held
  }

  lemma DoesNothing(held: map<Lock, Mode>)
    ensures Does(held, [], [], {})
  {
  }

  lemma DoesUse(held: map<Lock, Mode>, d: Data, mode: Mode)
    ensures Does(held, [Use(d, mode)], [], {Access(d, mode, held)})
  {
    assert [Use(d, mode)][1..] == [];
  }

  lemma DoesConcat(held: map<Lock, Mode>, a: Body, acts: seq<Act>, uses: set<Access>,
                   b: Body, more: seq<Act>, others: set<Access>)
    requires Does(held, a, acts, uses) && Does(held, b, more, others)
    ensures Does(held, a + b, acts + more, uses + others)
  {
    EraseConcat(a, b);
    UsesConcat(held, a, b);
    HoldingConcat(held, acts, more);
  }

  lemma DoesIf(held: map<Lock, Mode>, c: bool, b: Body, acts: seq<Act>, uses: set<Access>)
    requires c ==> Does(held, b, acts, uses)
    ensures Does(held, If(c, b), When(c, acts), if c then uses else {})
  {
  }

  lemma EraseSection(l: Lock, mode: Mode, body: Body)
    ensures Erase(Section(l, mode, body)) == Locked(l, mode, Erase(body))
  {
    EraseConcat([Do(Acquire(l, mode))] + body, [Do(Release(l))]);
    EraseConcat([Do(Acquire(l, mode))], body);
    assert [Do(Acquire(l, mode))][1..] == [] && [Do(Release(l))][1..] == [];
  }

  lemma DoesSection(held: map<Lock, Mode>, l: Lock, mode: Mode, b: Body, acts: seq<Act>, uses: set<Access>)
    requires l !in held && Does(held[l := mode], b, acts, uses)
    ensures Does(held, Section(l, mode, b), Locked(l, mode, acts), uses)
  {
    EraseSection(l, mode, b);
    var first, last := [Acquire(l, mode)], [Release(l)];
    assert first[1..] == [] && last[1..] == [];
    HoldingConcat(held, first, acts);
    HoldingConcat(held, first + acts, last);
    assert held[l := mode] - {l} == held;
    assert [Do(Acquire(l, mode))][1..] == [] && [Do(Release(l))][1..] == [];
    UsesConcat(held, [Do(Acquire(l, mode))], b);
    EraseConcat([Do(Acquire(l, mode))], b);
    UsesConcat(held, [Do(Acquire(l, mode))] + b, [Do(Release(l))]);
  }

  lemma DoesLeaf(held: map<Lock, Mode>, l: Lock, mode: Mode, d: Data, use: Mode)
    requires l !in held
    ensures Does(held, Section(l, mode, [Use(d, use)]), Locked(l, mode, []), {Access(d, use, held[l := mode])})
  {
    DoesUse(held[l := mode], d, use);
    DoesSection(held, l, mode, [Use(d, use)], [], {Access(d, use, held[l := mode])});
  }

  function MuxUses(held: map<Lock, Mode>, private: bool, public: bool): set<Access> {
    (if private then {Access(PrivateRoutes, Write, held[PrivateMux := Write])} else {})
    + (if public then {Access(PublicRoutes, Write, held[PublicMux := Write])} else {})
  }

  lemma MuxDoes(held: map<Lock, Mode>, private: bool, public: bool)
    requires held.Keys <= {NetCfg, Config}
    ensures Does(held, MuxBody(private, public), MuxCalls(private, public), MuxUses(held, private, public))
  {
    var p := Section(PrivateMux, Write, [Use(PrivateRoutes, Write)]);
    var q := Section(PublicMux, Write, [Use(PublicRoutes, Write)]);
    var u := {Access(PrivateRoutes, Write, held[PrivateMux := Write])};
    var v := {Access(PublicRoutes, Write, held[PublicMux := Write])};
    DoesLeaf(held, PrivateMux, Write, PrivateRoutes, Write);
    DoesLeaf(held, PublicMux, Write, PublicRoutes, Write);
    DoesIf(held, private, p, Locked(PrivateMux, Write, []), u);
    DoesIf(held, public, q, Locked(PublicMux, Write, []), v);
    DoesConcat(held, If(private, p), When(private, Locked(PrivateMux, Write, [])), if private then u else {},
               If(public, q), When(public, Locked(PublicMux, Write, [])), if public then v else {});
  }

  function HandlerUses(private: bool, public: bool): set<Access> {
    var h := map[Config := Write];
    {Access(ServerConfig, Write, h)} + MuxUses(h, private, public)
  }

  lemma HandlerDoes(private: bool, public: bool)
    ensures Does(map[], Section(Config, Write, [Use(ServerConfig, Write)] + MuxBody(private, public)),
                 Locked(Config, Write, MuxCalls(private, public)), HandlerUses(private, public))
  {
    var h: map<Lock, Mode> := map[Config := Write];
    DoesUse(h, ServerConfig, Write);
    MuxDoes(h, private, public);
    DoesConcat(h, [Use(ServerConfig, Write)], [], {Access(ServerConfig, Write, h)},
               MuxBody(private, public), MuxCalls(private, public), MuxUses(h, private, public));
    assert [] + MuxCalls(private, public) == MuxCalls(private, public);
    DoesSection(map[], Config, Write, [Use(ServerConfig, Write)] + MuxBody(private, public),
                MuxCalls(private, public), HandlerUses(private, public));
  }

  function RestartUses(h: map<Lock, Mode>): set<Access> {
    {Access(MuxFlags, Write, h)} + {Access(LocalAddrList, Read, h[LocalAddrs := Write])}
  }

  function ConfigureUses(held: map<Lock, Mode>, private: bool, public: bool, restarts: bool): set<Access> {
    var h := held[Config := Write];
    {Access(ServerConfig, Write, h)} + (MuxUses(h, private, public) + if restarts then RestartUses(h) else {})
  }

  lemma RestartDoes(h: map<Lock, Mode>, restarts: bool)
    requires LocalAddrs !in h
    ensures Does(h, If(restarts, [Use(MuxFlags, Write)] + Section(LocalAddrs, Write, [Use(LocalAddrList, Read)])),
                 When(restarts, Locked(LocalAddrs, Write, [])), if restarts then RestartUses(h) else {})
  {
    var addrs := Section(LocalAddrs, Write, [Use(LocalAddrList, Read)]);
    DoesUse(h, MuxFlags, Write);
    DoesLeaf(h, LocalAddrs, Write, LocalAddrList, Read);
    DoesConcat(h, [Use(MuxFlags, Write)], [], {Access(MuxFlags, Write, h)},
               addrs, Locked(LocalAddrs, Write, []), {Access(LocalAddrList, Read, h[LocalAddrs := Write])});
    assert [] + Locked(LocalAddrs, Write, []) == Locked(LocalAddrs, Write, []);
    DoesIf(h, restarts, [Use(MuxFlags, Write)] + addrs, Locked(LocalAddrs, Write, []), RestartUses(h));
  }

  lemma ConfigureDoes(held: map<Lock, Mode>, private: bool, public: bool, restarts: bool)
    requires held.Keys <= {NetCfg}
    ensures Does(held, ConfigureBody(private, public, restarts), ConfigureScript(private, public, restarts),
                 ConfigureUses(held, private, public, restarts))
  {
    var h := held[Config := Write];
    var rest := If(restarts, [Use(MuxFlags, Write)] + Section(LocalAddrs, Write, [Use(LocalAddrList, Read)]));
    var restUses := if restarts then RestartUses(h) else {};
    var restActs := When(restarts, Locked(LocalAddrs, Write, []));
    MuxDoes(h, private, public);
    RestartDoes(h, restarts);
    DoesConcat(h, MuxBody(private, public), MuxCalls(private, public), MuxUses(h, private, public),
               rest, restActs, restUses);
    DoesUse(h, ServerConfig, Write);
    var acts := MuxCalls(private, public) + restActs;
    DoesConcat(h, [Use(ServerConfig, Write)], [], {Access(ServerConfig, Write, h)},
               MuxBody(private, public) + rest, acts, MuxUses(h, private, public) + restUses);
    assert [] + acts == acts;
    DoesSection(held, Config, Write, [Use(ServerConfig, Write)] + (MuxBody(private, public) + rest), acts,
                ConfigureUses(held, private, public, restarts));
  }

  function CfgNetUses(configures: bool, private: bool, public: bool, restarts: bool): set<Access> {
    var h := map[NetCfg := Write];
    {Access(AccessRights, Write, h)} + if configures then ConfigureUses(h, private, public, restarts) else {}
  }

  lemma CfgNetDoes(configures: bool, private: bool, public: bool, restarts: bool)
    ensures var c := CfgNet(configures, private, public, restarts);
            Does(map[], BodyOf(c), Script(c), CfgNetUses(configures, private, public, restarts))
  {
    var h: map<Lock, Mode> := map[NetCfg := Write];
    var body, acts := ConfigureBody(private, public, restarts), ConfigureScript(private, public, restarts);
    var uses := ConfigureUses(h, private, public, restarts);
    DoesUse(h, AccessRights, Write);
    ConfigureDoes(h, private, public, restarts);
    DoesIf(h, configures, body, acts, uses);
    DoesConcat(h, [Use(AccessRights, Write)], [], {Access(AccessRights, Write, h)},
               If(configures, body), When(configures, acts), if configures then uses else {});
    assert [] + When(configures, acts) == When(configures, acts);
    DoesSection(map[], NetCfg, Write, [Use(AccessRights, Write)] + If(configures, body), When(configures, acts),
                CfgNetUses(configures, private, public, restarts));
  }

  // ----- the geo lookup -----

  const GEO_READ: map<Lock, Mode> := map[GeoCfg := Read]
  const GEO_WRITE: map<Lock, Mode> := map[GeoCfg := Write]

  function TimesUses(known: bool, stale: bool): set<Access> {
    if !known then {}
    else {Access(GeoTimes, Read, map[])} + if stale then {Access(GeoTimes, Write, map[])} else {}
  }

  lemma TimesDo(known: bool, stale: bool)
    ensures Does(map[], TimesBody(known, stale), [], TimesUses(known, stale))
  {
    var drop := {Access(GeoTimes, Write, map[])};
    DoesUse(map[], GeoTimes, Read);
    DoesUse(map[], GeoTimes, Write);
    DoesIf(map[], stale, [Use(GeoTimes, Write)], [], drop);
    DoesConcat(map[], [Use(GeoTimes, Read)], [], {Access(GeoTimes, Read, map[])},
               If(stale, [Use(GeoTimes, Write)]), [], if stale then drop else {});
    DoesNothing(map[]);
  }

  function FetchUses(replied: bool): set<Access> {
    {Access(GeoSettings, Read, GEO_READ)}
    + if replied then {Access(GeoAnswers, Write, GEO_WRITE)} + {Access(GeoTimes, Write, GEO_WRITE)} else {}
  }

  lemma FetchDoes(replied: bool)
    ensures Does(map[], FetchBody(replied), Locked(GeoCfg, Read, []) + When(replied, Locked(GeoCfg, Write, [])),
                 FetchUses(replied))
  {
    var body := [Use(GeoAnswers, Write)] + [Use(GeoTimes, Write)];
    var uses := {Access(GeoAnswers, Write, GEO_WRITE)} + {Access(GeoTimes, Write, GEO_WRITE)};
    DoesLeaf(map[], GeoCfg, Read, GeoSettings, Read);
    DoesUse(GEO_WRITE, GeoAnswers, Write);
    DoesUse(GEO_WRITE, GeoTimes, Write);
    DoesConcat(GEO_WRITE, [Use(GeoAnswers, Write)], [], {Access(GeoAnswers, Write, GEO_WRITE)},
               [Use(GeoTimes, Write)], [], {Access(GeoTimes, Write, GEO_WRITE)});
    DoesSection(map[], GeoCfg, Write, body, [], uses);
    DoesIf(map[], replied, Section(GeoCfg, Write, body), Locked(GeoCfg, Write, []), uses);
    DoesConcat(map[], Section(GeoCfg, Read, [Use(GeoSettings, Read)]), Locked(GeoCfg, Read, []),
               {Access(GeoSettings, Read, GEO_READ)},
               If(replied, Section(GeoCfg, Write, body)), When(replied, Locked(GeoCfg, Write, [])),
               if replied then uses else {});
  }

  function AskUses(known: bool, stale: bool, replied: bool): set<Access> {
    {Access(GeoAnswers, Read, GEO_READ)}
    + (TimesUses(known, stale) + if known && !stale then {} else FetchUses(replied))
  }

  function GeoUses(isPrivate: bool, known: bool, stale: bool, replied: bool): set<Access> {
    {Access(ServerConfig, Read, map[Config := Read])} + if isPrivate then {} else AskUses(known, stale, replied)
  }

  lemma AskDoes(known: bool, stale: bool, replied: bool)
    ensures Does(map[], Section(GeoCfg, Read, [Use(GeoAnswers, Read)])
                        + (TimesBody(known, stale) + If(!(known && !stale), FetchBody(replied))),
                 Locked(GeoCfg, Read, [])
                 + When(!(known && !stale), Locked(GeoCfg, Read, []) + When(replied, Locked(GeoCfg, Write, []))),
                 AskUses(known, stale, replied))
  {
    var acts := Locked(GeoCfg, Read, []) + When(replied, Locked(GeoCfg, Write, []));
    var c := !(known && !stale);
    FetchDoes(replied);
    DoesIf(map[], c, FetchBody(replied), acts, FetchUses(replied));
    TimesDo(known, stale);
    DoesConcat(map[], TimesBody(known, stale), [], TimesUses(known, stale),
               If(c, FetchBody(replied)), When(c, acts), if c then FetchUses(replied) else {});
    assert [] + When(c, acts) == When(c, acts);
    DoesLeaf(map[], GeoCfg, Read, GeoAnswers, Read);
    DoesConcat(map[], Section(GeoCfg, Read, [Use(GeoAnswers, Read)]), Locked(GeoCfg, Read, []),
               {Access(GeoAnswers, Read, GEO_READ)},
               TimesBody(known, stale) + If(c, FetchBody(replied)), When(c, acts),
               TimesUses(known, stale) + if c then FetchUses(replied) else {});
  }

  lemma GeoDoes(isPrivate: bool, known: bool, stale: bool, replied: bool)
    ensures Does(map[], GeoBody(isPrivate, known, stale, replied), GeoScript(isPrivate, known && !stale, replied),
                 GeoUses(isPrivate, known, stale, replied))
  {
    var ask := Section(GeoCfg, Read, [Use(GeoAnswers, Read)])
               + (TimesBody(known, stale) + If(!(known && !stale), FetchBody(replied)));
    var acts := Locked(GeoCfg, Read, [])
                + When(!(known && !stale), Locked(GeoCfg, Read, []) + When(replied, Locked(GeoCfg, Write, [])));
    AskDoes(known, stale, replied);
    DoesIf(map[], !isPrivate, ask, acts, AskUses(known, stale, replied));
    DoesLeaf(map[], Config, Read, ServerConfig, Read);
    DoesConcat(map[], Section(Config, Read, [Use(ServerConfig, Read)]), Locked(Config, Read, []),
               {Access(ServerConfig, Read, map[Config := Read])},
               If(!isPrivate, ask), When(!isPrivate, acts), if !isPrivate then AskUses(known, stale, replied) else {});
  }

  // ----- the other calls -----

  function EntryUses(public: bool): set<Access> {
    {Access(MuxFlags, Read, map[])}
    + {Access(RoutesOf(public), Read, map[(if public then PublicMux else PrivateMux) := Read])}
    + {Access(AccessRights, Read, map[NetCfg := Read])}
    + {Access(GeoSettings, Read, GEO_READ)}
  }

  function ServeUses(public: bool, geoChecked: bool, geo: set<Access>): set<Access> {
    EntryUses(public) + if geoChecked then geo + {Access(GeoSettings, Read, GEO_READ)} else {}
  }

  lemma EntryDoes(public: bool)
    ensures Does(map[], EntryBody(public), Locked(if public then PublicMux else PrivateMux, Read, [])
                                           + Locked(NetCfg, Read, []) + Locked(GeoCfg, Read, []), EntryUses(public))
  {
    var mux := if public then PublicMux else PrivateMux;
    var flags, find := [Use(MuxFlags, Read)], Section(mux, Read, [Use(RoutesOf(public), Read)]);
    var u, v := {Access(MuxFlags, Read, map[])}, {Access(RoutesOf(public), Read, map[mux := Read])};
    DoesUse(map[], MuxFlags, Read);
    DoesLeaf(map[], mux, Read, RoutesOf(public), Read);
    DoesLeaf(map[], NetCfg, Read, AccessRights, Read);
    DoesLeaf(map[], GeoCfg, Read, GeoSettings, Read);
    DoesConcat(map[], flags, [], u, find, Locked(mux, Read, []), v);
    assert [] + Locked(mux, Read, []) == Locked(mux, Read, []);
    DoesConcat(map[], flags + find, Locked(mux, Read, []), u + v,
               Section(NetCfg, Read, [Use(AccessRights, Read)]), Locked(NetCfg, Read, []),
               {Access(AccessRights, Read, map[NetCfg := Read])});
    DoesConcat(map[], flags + find + Section(NetCfg, Read, [Use(AccessRights, Read)]),
               Locked(mux, Read, []) + Locked(NetCfg, Read, []),
               u + v + {Access(AccessRights, Read, map[NetCfg := Read])},
               Section(GeoCfg, Read, [Use(GeoSettings, Read)]), Locked(GeoCfg, Read, []),
               {Access(GeoSettings, Read, GEO_READ)});
  }

  lemma ServeDoes(public: bool, geoChecked: bool, geo: Body, acts: seq<Act>, uses: set<Access>)
    requires Does(map[], geo, acts, uses)
    ensures Does(map[], ServeBody(public, geoChecked, geo),
                 Locked(if public then PublicMux else PrivateMux, Read, []) + Locked(NetCfg, Read, [])
                 + Locked(GeoCfg, Read, []) + When(geoChecked, acts + Locked(GeoCfg, Read, [])),
                 ServeUses(public, geoChecked, uses))
  {
    var perms := Section(GeoCfg, Read, [Use(GeoSettings, Read)]);
    var read := {Access(GeoSettings, Read, GEO_READ)};
    EntryDoes(public);
    DoesLeaf(map[], GeoCfg, Read, GeoSettings, Read);
    DoesConcat(map[], geo, acts, uses, perms, Locked(GeoCfg, Read, []), read);
    DoesIf(map[], geoChecked, geo + perms, acts + Locked(GeoCfg, Read, []), uses + read);
    DoesConcat(map[], EntryBody(public), Locked(if public then PublicMux else PrivateMux, Read, [])
                                         + Locked(NetCfg, Read, []) + Locked(GeoCfg, Read, []), EntryUses(public),
               If(geoChecked, geo + perms), When(geoChecked, acts + Locked(GeoCfg, Read, [])),
               if geoChecked then uses + read else {});
  }

  const LOG_READ: map<Lock, Mode> := map[Log := Read]

  function LoggerUses(found: set<Access>): set<Access> {
    {Access(LogServices, Read, LOG_READ)} + found
  }

  lemma LoggerDoes(found: Body, uses: set<Access>)
    requires Does(LOG_READ, found, [], uses)
    ensures Does(map[], LoggerBody(found, true), LoggerScript(true), LoggerUses(uses))
  {
    DoesUse(LOG_READ, LogServices, Read);
    DoesConcat(LOG_READ, [Use(LogServices, Read)], [], {Access(LogServices, Read, LOG_READ)}, found, [], uses);
    DoesSection(map[], Log, Read, [Use(LogServices, Read)] + found, [], LoggerUses(uses));
  }

  lemma UnknownNameErases(found: Body)
    ensures Erase(LoggerBody(found, false)) == LoggerScript(false)
  {
    var nested := Section(Log, Read, [Use(LogServices, Read)]);
    DoesLeaf(map[], Log, Read, LogServices, Read);
    assert Locked(Log, Read, []) == MESSAGE;
    assert ([Use(LogServices, Read)] + nested)[1..] == nested;
    EraseSection(Log, Read, [Use(LogServices, Read)] + nested);
  }

  /** The one use of a call that takes one lock for it. */
  function LeafUse(c: Call): Access
    requires IsLeaf(c) && !c.IpsRead?
  {
    match c
    case Shutdown => Access(ServerConfig, Read, map[Config := Write])
    case ReadConfig => Access(ServerConfig, Read, map[Config := Read])
    case NetEnumAddrs => Access(LocalAddrList, Write, map[LocalAddrs := Write])
    case LocalAddresses => Access(LocalAddrList, Read, map[LocalAddrs := Read])
    case GetAccessLevel => Access(AccessRights, Read, map[NetCfg := Read])
    case NetId => Access(NetIdText, Read, map[NetCfg := Write])
    case Lookup(public) => Access(RoutesOf(public), Read, map[(if public then PublicMux else PrivateMux) := Read])
    case GeoConfigChange => Access(GeoSettings, Write, GEO_WRITE)
    case IpsRecord => Access(RequestRing, Write, map[Ips := Write])
    case ReadLogs => Access(LogServices, Read, LOG_READ)
  }

  lemma LeafDoes(c: Call)
    requires IsLeaf(c) && !c.IpsRead?
    ensures Does(map[], BodyOf(c), Script(c), {LeafUse(c)})
  {
    var l, mode := Script(c)[0].lock, Script(c)[0].mode;
    DoesLeaf(map[], l, mode, LeafUse(c).data, LeafUse(c).mode);
  }

  /** All that a call does to shared data, and the locks under which it does it. */
  function Accesses(c: Call): set<Access> {
    match c
    case CfgNet(configures, private, public, restarts) => CfgNetUses(configures, private, public, restarts)
    case Configure(private, public, restarts) => ConfigureUses(map[], private, public, restarts)
    case RegisterHandler(private, public) => HandlerUses(private, public)
    case RemoveHandler => HandlerUses(true, true)
    case GeoResolve(isPrivate, known, stale, replied) => GeoUses(isPrivate, known, stale, replied)
    case ServeHttp(public, geoChecked, isPrivate, known, stale, replied) =>
      ServeUses(public, geoChecked, GeoUses(isPrivate, known, stale, replied))
    case IpsRead => {Access(RequestRing, Read, map[])} + {Access(RequestRing, Read, map[Ips := Read])}
    case LogTo(known) => LoggerUses({Access(LogEnabled, Read, LOG_READ)})
    case SetLogsEnabled(known) => LoggerUses({Access(LogEnabled, Write, LOG_READ)})
    case SetFlushIntervalSec(known) => LoggerUses({})
    case ChangeLogs => {Access(LogServices, Write, map[Log := Write])}
    case _ => {LeafUse(c)}
  }

  lemma IpsReadDoes()
    ensures Does(map[], BodyOf(IpsRead), Script(IpsRead), Accesses(IpsRead))
  {
    DoesUse(map[], RequestRing, Read);
    DoesLeaf(map[], Ips, Read, RequestRing, Read);
    DoesConcat(map[], [Use(RequestRing, Read)], [], {Access(RequestRing, Read, map[])},
               Section(Ips, Read, [Use(RequestRing, Read)]), Locked(Ips, Read, []),
               {Access(RequestRing, Read, map[Ips := Read])});
    assert [] + Locked(Ips, Read, []) == Locked(Ips, Read, []);
  }

  lemma LoggerCallDoes(c: Call)
    requires LooksNameUp(c) && c.known
    ensures Does(map[], BodyOf(c), Script(c), Accesses(c))
  {
    match c
    case LogTo(_) =>
      DoesUse(LOG_READ, LogEnabled, Read);
      LoggerDoes([Use(LogEnabled, Read)], {Access(LogEnabled, Read, LOG_READ)});
    case SetLogsEnabled(_) =>
      DoesUse(LOG_READ, LogEnabled, Write);
      LoggerDoes([Use(LogEnabled, Write)], {Access(LogEnabled, Write, LOG_READ)});
    case SetFlushIntervalSec(_) =>
      DoesNothing(LOG_READ);
      LoggerDoes([], {});
  }

  ghost predicate CallFits(c: Call) {
    Does(map[], BodyOf(c), Script(c), Accesses(c))
  }

  lemma SettingCallFits(c: Call)
    requires c.CfgNet? || c.Configure? || c.RegisterHandler? || c.RemoveHandler?
    ensures CallFits(c)
  {
    match c
    case CfgNet(configures, private, public, restarts) => CfgNetDoes(configures, private, public, restarts);
    case Configure(private, public, restarts) => ConfigureDoes(map[], private, public, restarts);
    case RegisterHandler(private, public) => HandlerDoes(private, public);
    case RemoveHandler => HandlerDoes(true, true);
  }

  lemma ServeFits(c: Call)
    requires c.ServeHttp?
    ensures CallFits(c)
  {
    GeoDoes(c.isPrivate, c.known, c.stale, c.replied);
    ServeDoes(c.public, c.geoChecked, GeoBody(c.isPrivate, c.known, c.stale, c.replied),
              GeoScript(c.isPrivate, c.known && !c.stale, c.replied),
              GeoUses(c.isPrivate, c.known, c.stale, c.replied));
  }

  lemma ChangeFits()
    ensures CallFits(ChangeLogs)
  {
    DoesLeaf(map[], Log, Write, LogServices, Write);
    assert Locked(Log, Write, []) == LOG_WRITER;
  }

  /** What each function does to the data fits what it does to the locks. */
  lemma EveryCallFits(c: Call)
    requires NamesExist(c)
    ensures CallFits(c)
  {
    match c
    case CfgNet(_, _, _, _) => SettingCallFits(c);
    case Configure(_, _, _) => SettingCallFits(c);
    case RegisterHandler(_, _) => SettingCallFits(c);
    case RemoveHandler => SettingCallFits(c);
    case GeoResolve(isPrivate, known, stale, replied) => GeoDoes(isPrivate, known, stale, replied);
    case ServeHttp(_, _, _, _, _, _) => ServeFits(c);
    case IpsRead => IpsReadDoes();
    case ChangeLogs => ChangeFits();
    case LogTo(_) => LoggerCallDoes(c);
    case SetLogsEnabled(_) => LoggerCallDoes(c);
    case SetFlushIntervalSec(_) => LoggerCallDoes(c);
    case _ => LeafDoes(c);
  }

  /** Without its uses of data, every body is the script of its function. */
  lemma BodyErases(c: Call)
    ensures Erase(BodyOf(c)) == Script(c)
  {
    if NamesExist(c) {
      EveryCallFits(c);
    } else {
      match c
      case LogTo(_) => UnknownNameErases([Use(LogEnabled, Read)]);
      case SetLogsEnabled(_) => UnknownNameErases([Use(LogEnabled, Write)]);
      case SetFlushIntervalSec(_) => UnknownNameErases([]);
    }
  }
}
