# srvApp: a verified model of its routing, access, listener, lock, log and cache logic

srvApp is a Go package for server processes: an HTTP router with a private and a public side, an
access list of CIDR blocks, listeners that follow the configuration and the network interfaces, named
loggers with daily rotation, a ring of recent requests and a cached geo lookup. This project states in
Dafny what that logic computes and proves what every call, every order of a map walk, every
interleaving and every run of calls keeps.

`dafny verify dfyconfig.toml` checks all of it.

| file | what it models |
|---|---|
| `Options.dfy`, `Text.dfy`, `Sorting.dfy` | an option type; splitting and joining at slashes; byte order and `sort.Strings` |
| `Paths.dfy` | `cleanPath` over the documented rules of Go's `path.Clean` |
| `Routes.dfy`, `XMux.dfy` | the route table as a value, and the `XMux` object whose methods are proved against it |
| `Redirects.dfy` | clients that follow the redirects the mux itself issues |
| `Cidr.dfy`, `AccessList.dfy` | CIDR arithmetic; the access list that `cfgNet` builds and `GetAccessLevel` reads |
| `Listeners.dfy` | addresses, listener objects, and the three loops of a restart |
| `ServerState.dfy`, `HttpSrv.dfy` | the server's state as a value, its runs, and the `HttpSrv` object |
| `ServerRuns.dfy` | the router theorems carried over to the two muxes inside the server |
| `Locks.dfy`, `LockCalls.dfy` | goroutines contending for Go's readers-writer locks; what the server's functions do to them |
| `SharedData.dfy`, `Races.dfy` | what those functions do to shared data under their locks, and which of them race |
| `SrvLogs.dfy` | loggers that share services and buffered logs, and their rotation |
| `IpStats.dfy`, `GeoCache.dfy` | the ring of recent requests; the geo lookup cache |

How to read it. Objects that the source updates in place are classes whose methods carry the whole new
state in their contracts, as a function of the old state; what those functions mean is proved as
lemmas about them and about runs of them. Panics are outcomes (`Outcome`), with the state that the
panicking call leaves behind. A walk over a Go map picks any remaining key at each step, so what is
proved holds for every order. The system's answer to an attempt to listen, the reply of the geo
service, the clock, and the logs whose rotation goes wrong are parameters. What the `HttpSrv` struct
holds twice, once for each side, is the class `HttpSide`, of which the server has two. A configuration
call is split into methods for its parts.

Where the code and its documentation disagree, the code is modelled:

- `Handler` says that it always returns a non-nil handler; it returns none on a miss
  (`Routes.AnswerIsNilExactlyWhen`).
- The private networks include 172.16.0.0/16, not the 172.16.0.0/12 of section 3 of RFC 1918
  (`Listeners.PrivateRanges`).

Where a promise one might expect fails, the project has the failing inputs and says exactly when it
holds:

- With colon-free methods and rooted patterns, so that host lookup is off, the redirects of a method
  other than CONNECT end exactly when no route's pattern has set a trap for it, a redirect whose own
  path is canonical and ends in a slash (`Redirects.RedirectsEndExactlyWhen`); only a pattern that
  doubles the last slash of a canonical path sets one (`Redirects.TrapsComeFromDoubledSlashes`,
  `Redirects.DoubledSlashLoopsForever`).
- Without host lookup, a route answers some request of a method that is not its own exactly when its
  own method holds a colon and the text after the first one, with another colon and the pattern, is a
  path that requests are answered for: a canonical one, or any for CONNECT
  (`Routes.RouteLeaksExactlyWhen`, carried to the server by `ServerRuns.ServerRouteLeaksExactlyWhen`;
  `Routes.ColonInMethodLeaks`, `Routes.ColonInMethodMayBeHarmless`). With host lookup it need not hold
  a colon (`Routes.HostRunsIntoMethod`).
- Registering and removing restores the table exactly when the key was unused and no host lookup is
  newly turned on (`Routes.HandleThenRemoveRestores`).
- Access coverage need not be the union of the lines (`AccessList.WideBlockIsDropped`). It is exactly
  when the list fills each line's block, which can be decided by halving the block
  (`AccessList.UnionExactlyWhen`, `AccessList.FilledExactlyWhenCovered`), in particular with wider lines
  first (`AccessList.UnionWhenWideLinesFirst`); what it is otherwise is `AccessList.CoverageIsExact`.
- A duplicate registration panics but stays listed (`ServerState.DuplicateListsTheWrongHandler`).
- A static directory can be set only once in a run (`ServerState.StaticDirCanBeSetOnce`,
  `ServerState.ConfigurePanicsExactlyWhen`).
- A port that is no longer configured can stay open after a `Configure` that panics: ports stay current
  over a run exactly when each panic is harmless (`ServerState.RunKeepsPortsExactlyWhen`,
  `ServerState.OldPortStaysOpen`).
- An address that is to be ignored can stay open (`ServerState.IgnoredStaysOpenExactlyWhen`).
- A listener can speak the wrong protocol after a restart (`Listeners.ProtocolsRightExactlyWhen`,
  `Listeners.SwappedPortsSpeakTheWrongProtocol`).
- A failed geo refresh makes the old answer permanent (`GeoCache.FailedRefreshIsServedForever`).
- A log message deadlocks against a rotation exactly when it is written under the log's own lock
  (`Locks.MessageCanGetStuckExactlyWhen`), which a lookup of an unknown name in the global logger does
  (`LockCalls.UnknownNameDeadlocksExactlyWhen`).
- Two goroutines can be at the same data at once, one of them to write it, exactly when they make one
  of four pairs of calls (`Races.RacesExactlyWhen`, `Races.ConflictExactlyWhen`): reading the request
  ring, whose length is taken before its lock, and writing it; serving a request, which reads the flags
  of the mux without a lock, and configuring the server; switching a log, which writes under a reader's
  lock, and using that switch; and two geo lookups, one of which finds its host cached and reads the
  time of its answer without a lock while the other drops or stores one. Everything else is kept apart
  by the lock that guards it.

## Model

| member | source | states |
|---|---|---|
| Paths.RulesAreConfluent | netXMux.go:88-88 | the documented rules of `path.Clean`, applied in any order until none applies, always end with the same elements, those of the stack |
| Paths.RulesTerminate | netXMux.go:88-88 | every list of elements has a run of the rules that ends with names only |
| Paths.IrreducibleIffNames | netXMux.go:88-88 | no rule applies to a list of elements exactly when all are names |
| Paths.CleanPathFollowsTheRules | netXMux.go:81-95 | for every path, `cleanPath` answers the joined result of any finished run of the rules on the rooted path, with a trailing slash put back |
| Paths.CleanPathIsCanonical | netXMux.go:81-95 | the result is rooted with no empty, "." or ".." element but for a trailing slash, which it has exactly when the input had one or the result is "/" |
| Paths.CleanPathFixesExactlyCanonical | netXMux.go:129-129 | a path is left alone exactly when it is canonical, so `Handler` redirects exactly the others |
| Paths.CleanPathIdempotent | netXMux.go:81-95 | cleaning a cleaned path changes nothing |
| Routes.RegisterKeepsTableOk | netXMux.go:253-306 | `Handle` keeps the table invariant, panics included |
| Routes.UnregisterKeepsTableOk | netXMux.go:314-329 | `RemoveHandleFunc` keeps it: a redirect never outlives its route |
| Routes.RunTableOk | netXMux.go:253-329 | in every reachable table each redirect at k has an explicit route at k + "/" with its method, required access and pattern, and every entry is filed under its handler's key |
| Routes.HandleThenRemoveRestores | netXMux.go:253-329 | a successful `Handle` undone by `RemoveHandleFunc` restores the whole table exactly when the key was unused before and the pattern is rooted or host lookup was on already |
| Routes.BestKeyIsTheLongestMatch | netXMux.go:68-113 | trying prefixes from the longest down finds the one longest matching key, and finds none exactly when none matches |
| Routes.LookupIsLongestReach | netXMux.go:68-113 | for every table and path, the entry at a key answers exactly when the key is the longest that is the path or a slash-ended prefix of it, at any depth; nothing answers exactly when there is no such key |
| Routes.AnswerIsLongestReach | netXMux.go:127-160 | a request whose path is not cleaned is answered by the longest such key of `method:path`, or of that with the host before it if the mux has a host pattern and some key reaches that |
| Routes.RouteIsNeverMissed | netXMux.go:68-78 | a request for a route's pattern or any path below a slash-ended one is answered, by a key no shorter than the route's |
| Routes.CleaningRedirectIsOpen | netXMux.go:128-140 | any other request is redirected to its cleaned path, at access level none, and reports the pattern that answers there |
| Routes.AnswerIsNilExactlyWhen | netXMux.go:115-160 | there is no handler exactly when the path is not cleaned and no key matches |
| Routes.NewRouteChangesOnlyItsPaths | netXMux.go:253-306 | a new route changes lookups only where its key, or the redirect key it brought, is now the longest match |
| Routes.SlashlessIsRedirected | netXMux.go:280-305 | a slash-ended pattern brings a redirect to it from the path without the slash, at its own access level, unless that path has an explicit route, which stays |
| Routes.FirstSlash | netXMux.go:287-293 | the path of that redirect is the pattern from its first slash on |
| Routes.RemovalChangesOnlyItsPaths | netXMux.go:314-329 | a removal takes the key, present or not, and its redirect and nothing else; whatever else answered a path answers it still |
| Routes.LookupRespectsMethod | netXMux.go:148-160 | with colon-free methods a lookup answers with a handler of the request's method whose pattern is the path or a slash-ended prefix of it |
| Routes.RouteLeaksExactlyWhen | netXMux.go:127-160 | without host lookup, an explicit route answers some request of another, colon-free method exactly when its own method is `v:rest` and `rest:pattern` is a canonical path, or `v` is CONNECT |
| Routes.RegistrationLeaksExactlyWhen | netXMux.go:253-274 | the same of one registration of a rooted pattern on a new mux |
| Routes.HostRunsIntoMethod | netXMux.go:152-158 | with host lookup, every explicit route with a canonical pattern and a colon-free, non-empty method answers a request of another method |
| Routes.ColonInMethodMayBeHarmless | netXMux.go:127-143 | a route whose method holds a colon and that no request of another method reaches |
| Routes.ColonInMethodLeaks | netXMux.go:127-160 | a GET for a canonical path is answered, without a redirect, by a route of another method |
| Mux.XMux.constructor | netXMux.go:43-65 | a new mux has no routes and no host lookup |
| Mux.XMux.Match | netXMux.go:99-113 | the scan in any order answers with the entry at the longest key that reaches the path, and with nothing exactly when none does |
| Mux.XMux.FindHandler | netXMux.go:148-160 | the host lookup first if any pattern has a host, then the plain one |
| Mux.XMux.Handler | netXMux.go:127-144 | a redirect to the cleaned path carrying the pattern that will match, or the lookup |
| Mux.XMux.Handle | netXMux.go:253-306 | the new table, host flag and panic of a registration, in full |
| Mux.XMux.RemoveHandleFunc | netXMux.go:314-329 | the new table of a removal, in full |
| Redirects.DisciplinedRunIsRooted | netXMux.go:276-278 | histories of rooted patterns and colon-free methods reach only tables of rooted patterns and never turn host lookup on |
| Redirects.LookupKinds | netXMux.go:99-160 | a lookup answers with nothing, an explicit route of the client's method, or a redirect stored for that path or for a slash-ended prefix of it |
| Redirects.StoredRedirectLeadsHome | netXMux.go:280-305 | a stored redirect leads to the explicit entry of its own route and reports its pattern |
| Redirects.NoTrapEnds | netXMux.go:99-144 | without traps, and for CONNECT always, every chain ends at an explicit route of the client's method or not-found after at most two redirects (one for CONNECT), with one pattern reported throughout |
| Redirects.TrapLoopsForever | netXMux.go:280-305 | at a trap the client is redirected however often it is willing to be |
| Redirects.RedirectsEndExactlyWhen | netXMux.go:99-144 | over all paths, chains end that way exactly when the table holds no trap for the method, and are bounded at all exactly then |
| Redirects.TrapsComeFromDoubledSlashes | netXMux.go:284-305 | a trap belongs to an explicit route whose pattern doubles the last slash of a canonical path |
| Redirects.RedirectsEnd | netXMux.go:99-144 | so for every history in which no registration for the method doubles its slash, canonical or not, every chain ends that way |
| Redirects.TwoRedirectsHappen | netXMux.go:127-144 | two redirects are reached |
| Redirects.DoubledSlashLoopsForever | netXMux.go:280-305 | registering such a pattern beside any other routes sets a trap, unless the slashless key has an explicit route |
| Cidr.NestedOrDisjoint | config.go:190-190 | blocks that share an address are nested, the longer prefix inside the shorter |
| Cidr.NarrowestBlocks | config.go:181-181 | a block of 32 bits in IPv4 or 128 in IPv6 holds its address alone, and one of a bit less the two that differ in the last bit |
| AccessList.AddLineKeepsNarrowFirst | config.go:187-213 | no line leaves a wider block before a narrower one that overlaps it |
| AccessList.BuildIsNarrowFirst | config.go:178-214 | so no list of lines does |
| AccessList.FirstMatch | netAccessLevel.go:39-43 | the scan finds the first entry that contains the address, or none contains it |
| AccessList.FirstMatchIsLongestPrefix | netAccessLevel.go:36-46 | for every list of lines the entry found is the one with the longest prefix among all that contain the host, and only that one |
| AccessList.LevelsAreLowest | config.go:187-213 | each entry is the block of its creating line at the lowest level of that line and all later lines whose address falls inside |
| AccessList.GrantedLevel | netAccessLevel.go:36-46 | what a host is granted: nothing if uncovered, else that lowest level for its longest block |
| AccessList.MoreLinesNeverRaise | config.go:187-213 | further lines never move, raise or uncover a covered host |
| AccessList.CoverageIsExact | config.go:188-214 | a host is covered exactly when it lies in the block of a line whose own address the earlier lines left uncovered |
| AccessList.CoveredAddressAddsNothing | config.go:189-203 | a line whose address is covered already changes no host's coverage, however wide its block |
| AccessList.FilledExactlyWhenCovered | netAccessLevel.go:36-46 | every address of a block is covered exactly when an entry holds the block or both its halves are covered, all the way down |
| AccessList.UnionExactlyWhen | config.go:187-214 | coverage is the union of the lines' blocks exactly when the list fills each of them |
| AccessList.UnionWhenWideLinesFirst | config.go:189-214 | in particular if no line's address lies in the block of an earlier line with a longer prefix |
| AccessList.WideBlockIsDropped | config.go:189-203 | otherwise it need not be: a host in a line's block that has no rights |
| AccessList.NetConfig.AddRights | config.go:187-213 | the inner loop over the entry objects and the append do what one line does to the list |
| AccessList.NetConfig.Rebuild | config.go:178-214 | the new list of fresh entries is the list of the lines |
| AccessList.NetConfig.GetAccessLevel | netAccessLevel.go:36-46 | the early-return scan answers the level of the first match; no address or no match is level none |
| Listeners.PrivateRanges | net.go:871-891 | the private networks as address ranges |
| Listeners.ListsAreWanted | net.go:424-447 | each list of a restart holds exactly the local addresses of its side on its port: on the private side those in the private ranges that are not ignored, on the public side the others |
| Listeners.RepeatedRestartKeepsListeners | net.go:424-521 | a second restart with the same wanted addresses keeps every listener object and opens none exactly when what was missing is refused again |
| Listeners.ProtocolsRightExactlyWhen | net.go:450-514 | after a restart every address speaks its configured protocol exactly when every kept listener did already and, without certificates, every attempt to open a new TLS address is refused |
| Listeners.SwappedPortsSpeakTheWrongProtocol | net.go:450-466 | when plain and TLS addresses trade places every listener is kept and speaks the wrong protocol |
| Listeners.SrvAppListener.Close | net.go:124-136 | closing releases the address once |
| Listeners.Listen | net.go:147-158 | listening fails exactly on a refusal or an open address, and what it opens is recorded |
| Listeners.CloseOld | net.go:449-466 | exactly the unwanted listeners are closed and dropped, and what is open is struck off one list |
| Listeners.OpenNew | net.go:468-520 | exactly the listed addresses that are neither refused nor open get a new open listener, and none of those opened is lost |
| Listeners.Restart | net.go:424-521 | the addresses afterwards are those wanted that were open or had an attempt that was not refused; wanted old listeners are the same open objects, unwanted ones are closed, new ones are fresh and of the protocol that succeeded, and all ever opened are accounted for |
| ServerState.RegisterSideKeepsOk | net.go:686-721 | registering keeps the handler map's keys equal to the mux's explicit keys, even when the mux panics |
| ServerState.RemoveSideKeepsOk | net.go:639-650 | so does removing |
| ServerState.DuplicateListsTheWrongHandler | net.go:686-689 | the listed handler stays the serving one exactly unless a different handler is registered for a taken route |
| ServerState.RegistrationServes | net.go:665-725 | a registration that does not panic gives each side it is for an explicit route with this method, pattern, handler and access level, lists it, and changes nothing else |
| ServerState.RegisterHandlerPanicsExactlyWhen | net.go:665-725 | it panics exactly when the path does not begin with a slash or a side it is for has that route already |
| ServerState.PanickedRegistration | net.go:673-716 | what a panic leaves of the routes of each side |
| ServerState.RegisteredRouteIsAnswered | net.go:665-725 | from the registration on, in any run and until that route is removed, a request for its path is answered by that handler at that level, exactly when the mux does not clean the path |
| ServerState.StaticRouteIsAnswered | net.go:220-256 | the same of a static directory: "/" is answered at the level configured with it, and every GET for a canonical path is answered |
| ServerState.RemovalIsExact | net.go:639-650 | a removal takes the route and its redirect from the listing and the mux of both sides, and nothing else |
| ServerState.ConfigureKeepsOk | net.go:187-272 | `Configure` keeps the maps in step and the sides' addresses apart, panicking or not |
| ServerState.ConfigureKeepsPortsCurrent | net.go:187-272 | when it does not panic every open address is on a port configured now |
| ServerState.ConfigurePanicsExactlyWhen | net.go:220-256 | it panics exactly when a side's static directory changes to a non-empty one while that side has an explicit `GET /` |
| ServerState.StaticDirCanBeSetOnce | net.go:220-256 | after a call that set a directory and any calls that do not remove `GET /`, a configuration panics exactly when it changes that directory to a non-empty one or the other side clashes |
| ServerState.RunIsOk | net.go:187-725 | over every run, panics included, handler maps and explicit routes have the same keys, host lookup is off, and private and public listeners have addresses of their kind |
| ServerState.PanicKeepsPortsExactlyWhen | net.go:210-256 | a panicking `Configure` leaves every open address on a current port exactly when those of each side it has set are on the new ports already |
| ServerState.RunKeepsPortsExactlyWhen | net.go:187-630 | over every run, every open address is on a current port after each call exactly when each panicking `Configure` was harmless in that sense |
| ServerState.RunKeepsPorts | net.go:187-630 | so ports are current after such a run, and after any run no address is open on both sides |
| ServerState.PanickedSettingsAreNotRetried | net.go:210-271 | the settings of a panicking call, given again without a forced restart, leave the listeners of each side that was set as they were |
| ServerState.OldPortStaysOpen | net.go:210-271 | for every private address and two ports a run after which the first port is open and only the second configured, though its last call succeeded |
| ServerState.ConfigureOpensExactly | net.go:187-272 | address by address, what a call leaves open: on a side whose ports or directory change, or when forced, the wanted addresses that were open or have an attempt that is not refused; on any other side what was open |
| ServerState.ForcedConfigureOpensExactly | net.go:263-271 | so a forced call with nothing refused opens a local address publicly exactly when it lies outside the private ranges, privately exactly when it lies inside and is not ignored, on each positive port of the side |
| ServerState.EnumerationIsForgotten | net.go:800-823 | only the addresses of the last enumeration count |
| ServerState.ForcedConfigureReconciles | net.go:263-271 | a forced configuration with nothing refused reaches the listed addresses, and repeating it changes nothing, whatever is refused then |
| ServerState.IgnoredStaysOpenExactlyWhen | net.go:205-271 | an address to be ignored stays open privately exactly when it was open, no private setting changed and no restart was forced |
| ServerState.IgnoredStaysOpen | net.go:205-271 | for every private address and port a run reaches that |
| HttpServer.HttpSide.Register | net.go:686-704 | one side's new handlers, routes and panic |
| HttpServer.HttpSide.Apply | net.go:210-232 | one side's new settings, static route, panic and change flag |
| HttpServer.HttpSide.RestartHttp | net.go:523-630 | the side's listeners are reconciled, and its open ones, of all that listening ever returned, are exactly those in its map |
| HttpServer.HttpSide.Servers | net.go:378-381 | each open address is listed once, by its text, sorted |
| HttpServer.HttpSide.Listing | net.go:373-376 | the listing is the mux's explicit keys in strictly ascending order |
| HttpServer.HttpSrv.constructor | net.go:766-792 | a new server has no routes, ports or listeners |
| HttpServer.HttpSrv.RegisterHandler | net.go:665-725 | the new state and panic for each kind of handler |
| HttpServer.HttpSrv.RemoveHandler | net.go:639-650 | the route leaves both maps of both sides |
| HttpServer.HttpSrv.GetNetInfo | net.go:358-394 | each side lists every explicit route and every open address once, sorted |
| HttpServer.HttpSrv.IsPrivateNetwork | net.go:274-304 | the two scans answer whether the address is not ignored and lies in the private ranges |
| HttpServer.HttpSrv.PrivateLists | net.go:426-447 | the loop over the local addresses collects the private lists |
| HttpServer.HttpSrv.PublicLists | net.go:525-556 | and the public ones |
| HttpServer.HttpSrv.RestartPrivateHttp | net.go:424-521 | the private side is reconciled with the private local addresses |
| HttpServer.HttpSrv.RestartPublicHttp | net.go:523-630 | the public side is reconciled with the other local addresses |
| HttpServer.HttpSrv.Configure | net.go:187-272 | the whole new state and panic, with no listener leaked and none closed but kept; on a side that restarts the wanted listeners are the same objects, on any other side all are |
| Sorting.StrLessExactlyWhen | net.go:376-376 | the comparison is byte order: a proper prefix comes first, otherwise the smaller character where two strings first differ |
| Sorting.SortedListingIsUnique | net.go:373-391 | a set of keys has one listing in byte order, so the map order leaves no trace |
| Sorting.SortedKeys | net.go:373-391 | collecting keys in any order and sorting lists each once, in byte order |
| ServerRuns.SideHistories | net.go:639-725 | each side's table is that of a history of mux calls that registers what the run does |
| ServerRuns.ServerRouteIsNeverMissed | netXMux.go:68-78 | over every run, a request for a route's pattern or any path below a slash-ended one is answered by the longest key of the side that reaches it |
| ServerRuns.ServerRedirectsEndExactlyWhen | netXMux.go:127-144 | over every run with colon-free methods a side's redirect chains end exactly when it holds no trap |
| ServerRuns.ServerRedirectsEnd | netXMux.go:127-144 | in particular when no registration for the method doubles its slash |
| ServerRuns.ServerRouteLeaksExactlyWhen | net.go:665-725 | over every run, whatever the methods, a route of a side answers another method under exactly the same condition |
| ServerRuns.ServerRespectsMethod | net.go:665-675 | over every run with colon-free methods a side answers only with handlers of the request's own method |
| Locks.StepKeepsStateOk | netXMux.go:148-150 | every step of every goroutine keeps writers exclusive |
| Locks.ReadersShare | netXMux.go:149-149 | readers never keep each other out |
| Locks.WhoIsKeptOut | netXMux.go:254-254 | in every state that satisfies the invariant, who waits for a lock waits for another goroutine: a writer in or announced, or, once announced, a reader |
| Locks.NeverStuck | net.go:201-203 | no state that satisfies the invariant has unfinished goroutines and no step |
| Locks.NoDeadlock | config.go:102-104 | for any goroutines with ordered scripts and any interleaving: exclusion holds, some goroutine can go on until all are finished, and the steps are bounded |
| Locks.MessageKeepsOrderExactlyWhen | log.go:165-169 | a log message keeps an ordered script ordered exactly where the log's lock is not held |
| Locks.MessageCanGetStuckExactlyWhen | log.go:165-175 | for every ordered script and point in it, the script with a message there can get stuck beside one writer of the log exactly when the log's lock is held there |
| Locks.ChattyIsOrderedExactlyWhen | config.go:114-222 | the same of any number of messages at any points |
| LockCalls.CallIsBalancedExactlyWhen | net.go:187-272 | every modelled function takes locks only above those it holds and gives them all back, exactly when it does not look an unknown name up in the global logger |
| LockCalls.ProgramIsOrderedExactlyWhen | config.go:102-104 | and so does every sequence of calls |
| LockCalls.CallsNeverDeadlock | net.go:199-271 | any number of goroutines that make such calls, and log while holding any other locks, never deadlock |
| LockCalls.UnknownNameDeadlocksExactlyWhen | log.go:171-174 | a call beside a rotation can deadlock exactly when it looks an unknown name up in the global logger |
| SharedData.EveryCallFits | net.go:187-272 | every modelled function gives its locks back and makes just the listed accesses, each under just the listed locks |
| SharedData.BodyErases | config.go:102-104 | the bodies that use data and the scripts of the deadlock theorems take the same locks in the same order |
| Races.ConflictExactlyWhen | geoIPSec.go:117-124 | of all pairs of functions exactly the four above have colliding accesses that the guarding lock does not keep apart |
| Races.RacesExactlyWhen | ipStats.go:100-117 | for any goroutines making any calls, some interleaving reaches a race exactly when two of them make such a pair of calls |
| SrvLogs.ReplaceKeepsSharing | log.go:207-231 | replacing each log by its own new one, two slots share a log exactly when they did before |
| SrvLogs.SrvLog.AddLog | log.go:68-83 | appends to the shared service, or makes one under a new name only here |
| SrvLogs.SrvLog.WithFields | log.go:284-306 | the derived logger has the very same services and the merged fields |
| SrvLogs.SrvLog.FileLogBufferCap | log.go:102-125 | the sum over the distinct buffered logs, each once, whatever the order |
| SrvLogs.SumCapsOfListing | log.go:108-121 | which is the sum over any listing of those logs that has each once |
| SrvLogs.SrvLog.RotateSlot | log.go:211-228 | one slot: replaced from the memo, rotated once, or stopped at |
| SrvLogs.SrvLog.RotateService | log.go:210-230 | one service: all its slots replaced consistently, or a consistent part of them |
| SrvLogs.SrvLog.Rotate | log.go:203-234 | each distinct log is rotated once, every slot holds its one fresh replacement, an error is returned exactly when a failing log is among them, and then slots are half replaced consistently |
| SrvLogs.RotateSeenFrom | log.go:284-306 | a second logger sees the same replacements in every service it shares, and keeps retired logs in the others |
| IpStats.IpsBuffer.Record | ipStats.go:67-73 | the write step appends to the history |
| IpStats.IpsBuffer.GetBuffer | ipStats.go:100-117 | for any ring size and history, exactly the last events that fit, oldest first |
| GeoCache.CacheIsHistory | geoIPSec.go:109-156 | after every run the two maps hold each host's last success, with its time unless a refresh failed since |
| GeoCache.PrivateHostIsLocal | geoIPSec.go:110-114 | after every run a private host is answered with the RFC1918 record, never Unknown, whatever is cached or replied, and leaves no trace |
| GeoCache.PrivateCallsLeaveNoTrace | geoIPSec.go:110-114 | a run leaves the maps of the same run without its private calls |
| GeoCache.AgeLimit | geoIPSec.go:121-124 | after a success a public host is looked up again exactly when that is more than 86,400 seconds ago |
| GeoCache.RequestsExactlyWhenDue | geoIPSec.go:117-132 | a request goes out exactly when the host's history asks for one |
| GeoCache.AnswerIsUnknownOrLatest | geoIPSec.go:109-156 | a public host gets Unknown when the lookup it needed failed and its latest success otherwise |
| GeoCache.CachedAnswerIsFresh | geoIPSec.go:120-127 | a cached answer is over a day old only if a refresh has failed since |
| GeoCache.FailedRefreshIsServedForever | geoIPSec.go:121-127 | after a failed refresh the old data is served for ever and never looked up again |
| GeoCache.StaleAnswerHappens | geoIPSec.go:121-134 | that state is reached |
| GeoCache.GeoResolver.ResolveAddr | geoIPSec.go:109-156 | the answer and the new maps of one call, in full; a private host is answered RFC1918 and changes nothing |

## Left out

- Mux.XMux.FindHandler: host patterns are modelled as stored and looked up, but `Routes.RouteLeaksExactlyWhen` and the redirect theorems leave them out, because they are stored under `GET:host/path` and looked up under `hostGET:/path`; in the server no pattern has a host.
- Redirects.RedirectsEndExactlyWhen: a redirect carries the path that the mux asks for; URL escaping, queries, what `net/http` may do to the path when it writes the answer, and redirects of an application's own handlers are not part of this model.
- AccessList.NetConfig.Rebuild: lines come parsed, as an address with a prefix length or as malformed; IPv4-mapped IPv6 blocks are not modelled.
- ServerState.RunKeepsPorts: nothing is claimed after `Shutdown`, which closes listeners and keeps them in the maps.
- Listeners.Listen: a refusal stands for every reason the system has but the process's own open sockets; one attempt for each address and protocol in a restart.
- LockCalls.CallIsBalancedExactlyWhen: the locks of the process state (`cfgLock`, `runLock`) are not modelled, nor are derived loggers, which share services with the global one under locks of their own; a call that returns early or panics does what a shorter call of the model does.
- GeoCache.GeoResolver.ResolveAddr: one call at a time, which the source does not ensure: `Races.RacesExactlyWhen` says when two meet at a timestamp. Latitude and longitude are not modelled.
- SrvLogs.SrvLog.Rotate: what `flog.Rotate` does to the old log's file is not part of this model; its result is assumed to be a new object.
- IpStats.IpsBuffer.Record: `container/ring` is an array walked with wrap-around; events dropped after two seconds of waiting are not events here.
- HttpServer.HttpSrv.GetNetInfo: how an address is written as text is a parameter that no two addresses share.
- Races.RacesExactlyWhen: a goroutine is at a use of data when that is its next step; what a torn read then sees is not modelled. Calls that look an unknown name up in the global logger are left to the deadlock theorems.
- Locks.NeverStuck: a goroutine holds a lock or does not; how often it has taken it for reading is not counted, so nothing is claimed of what follows when a second read is granted.
- `netEnumAddrs` replaces the local addresses; its count of changes is not modelled.
- Sockets, TLS handshakes, certificates, TLS redirect and X-Forwarded-For flags, status writing and counters: input and output around the modelled logic.
- `geoOnConfigChange`, `geoAuthorizeHost`, `parseAccessLevel`, `LogTo` formatting, the URI handlers, crash mail, PID files, signals and the Windows service code: each is settled by reading one branch or calls foreign code.
