/** What the functions of the server do to its locks, and what follows for goroutines that call them. */
module LockCalls {
  import opened Locks

  // ----- the calls -----

  function When(c: bool, body: seq<Act>): seq<Act> {
    if c then body else []
  }

  /** What the functions of the server do to the locks. A call that panics half way unwinds through
      its deferred unlocks, so it does what a call doing less would do. */
  datatype Call =
    | CfgNet(configures: bool, registersPrivate: bool, registersPublic: bool, restarts: bool)
    | Configure(registersPrivate: bool, registersPublic: bool, restarts: bool)
    | RegisterHandler(registersPrivate: bool, registersPublic: bool)
    | RemoveHandler
    | Shutdown
    | ReadConfig
    | NetEnumAddrs
    | LocalAddresses
    | GetAccessLevel
    | NetId
    | Lookup(public: bool)
    | GeoResolve(isPrivate: bool, known: bool, stale: bool, replied: bool)
    | GeoConfigChange
    | ServeHttp(public: bool, geoChecked: bool, isPrivate: bool, known: bool, stale: bool, replied: bool)
    | IpsRecord
    | IpsRead
    | LogTo(known: bool)
    | SetLogsEnabled(known: bool)
    | SetFlushIntervalSec(known: bool)
    | ReadLogs
    | ChangeLogs

  function MuxCalls(registersPrivate: bool, registersPublic: bool): seq<Act> {
    When(registersPrivate, Locked(PrivateMux, Write, [])) + When(registersPublic, Locked(PublicMux, Write, []))
  }

  function ConfigureScript(registersPrivate: bool, registersPublic: bool, restarts: bool): seq<Act> {
    Locked(Config, Write, MuxCalls(registersPrivate, registersPublic) + When(restarts, Locked(LocalAddrs, Write, [])))
  }

  /** `geoResolveAddr`; a host that is known is answered from the cache unless its answer is stale. */
  function GeoScript(isPrivate: bool, cached: bool, replied: bool): seq<Act> {
    Locked(Config, Read, [])
    + When(!isPrivate, Locked(GeoCfg, Read, [])
                       + When(!cached, Locked(GeoCfg, Read, []) + When(replied, Locked(GeoCfg, Write, []))))
  }

  /** A call on the global logger that looks a name up: for a name it does not know it reports an error
      to the global logger, itself, before it has given its lock back. */
  function LoggerScript(known: bool): seq<Act> {
    Locked(Log, Read, if known then [] else MESSAGE)
  }

  function Script(c: Call): seq<Act> {
    match c
    case CfgNet(configures, private, public, restarts) =>
      Locked(NetCfg, Write, When(configures, ConfigureScript(private, public, restarts)))
    case Configure(private, public, restarts) => ConfigureScript(private, public, restarts)
    case RegisterHandler(private, public) => Locked(Config, Write, MuxCalls(private, public))
    case RemoveHandler => Locked(Config, Write, MuxCalls(true, true))
    case Shutdown => Locked(Config, Write, [])
    case ReadConfig => Locked(Config, Read, [])
    case NetEnumAddrs => Locked(LocalAddrs, Write, [])
    case LocalAddresses => Locked(LocalAddrs, Read, [])
    case GetAccessLevel => Locked(NetCfg, Read, [])
    case NetId => Locked(NetCfg, Write, [])
    case Lookup(public) => Locked(if public then PublicMux else PrivateMux, Read, [])
    case GeoResolve(isPrivate, known, stale, replied) => GeoScript(isPrivate, known && !stale, replied)
    case GeoConfigChange => Locked(GeoCfg, Write, [])
    case ServeHttp(public, geoChecked, isPrivate, known, stale, replied) =>
      Locked(if public then PublicMux else PrivateMux, Read, []) + Locked(NetCfg, Read, [])
      + Locked(GeoCfg, Read, [])
      + When(geoChecked, GeoScript(isPrivate, known && !stale, replied) + Locked(GeoCfg, Read, []))
    case IpsRecord => Locked(Ips, Write, [])
    case IpsRead => Locked(Ips, Read, [])
    case LogTo(known) => LoggerScript(known)
    case SetLogsEnabled(known) => LoggerScript(known)
    case SetFlushIntervalSec(known) => LoggerScript(known)
    case ReadLogs => Locked(Log, Read, [])
    case ChangeLogs => LOG_WRITER
  }

  lemma MuxCallsBalanced(held: set<Lock>, private: bool, public: bool)
    requires held <= {NetCfg, Config}
    ensures Balanced(held, MuxCalls(private, public))
  {
    BalancedLeaf(held, PrivateMux, Write);
    BalancedLeaf(held, PublicMux, Write);
    BalancedConcat(held, When(private, Locked(PrivateMux, Write, [])), When(public, Locked(PublicMux, Write, [])));
  }

  lemma ConfigureBalanced(held: set<Lock>, private: bool, public: bool, restarts: bool)
    requires held <= {NetCfg}
    ensures Balanced(held, ConfigureScript(private, public, restarts))
  {
    MuxCallsBalanced(held + {Config}, private, public);
    BalancedLeaf(held + {Config}, LocalAddrs, Write);
    BalancedConcat(held + {Config}, MuxCalls(private, public), When(restarts, Locked(LocalAddrs, Write, [])));
    BalancedLocked(held, Config, Write, MuxCalls(private, public) + When(restarts, Locked(LocalAddrs, Write, [])));
  }

  lemma GeoBalanced(isPrivate: bool, cached: bool, replied: bool)
    ensures Balanced({}, GeoScript(isPrivate, cached, replied))
  {
    BalancedLeaf({}, Config, Read);
    BalancedLeaf({}, GeoCfg, Read);
    BalancedLeaf({}, GeoCfg, Write);
    var store := When(replied, Locked(GeoCfg, Write, []));
    BalancedConcat({}, Locked(GeoCfg, Read, []), store);
    var fetch := When(!cached, Locked(GeoCfg, Read, []) + store);
    BalancedConcat({}, Locked(GeoCfg, Read, []), fetch);
    BalancedConcat({}, Locked(Config, Read, []), When(!isPrivate, Locked(GeoCfg, Read, []) + fetch));
  }

  lemma ServeBalanced(c: Call)
    requires c.ServeHttp?
    ensures Balanced({}, Script(c))
  {
    var mux := if c.public then PublicMux else PrivateMux;
    BalancedLeaf({}, mux, Read);
    BalancedLeaf({}, NetCfg, Read);
    BalancedLeaf({}, GeoCfg, Read);
    BalancedConcat({}, Locked(mux, Read, []), Locked(NetCfg, Read, []));
    var entry := Locked(mux, Read, []) + Locked(NetCfg, Read, []) + Locked(GeoCfg, Read, []);
    BalancedConcat({}, Locked(mux, Read, []) + Locked(NetCfg, Read, []), Locked(GeoCfg, Read, []));
    var geo := GeoScript(c.isPrivate, c.known && !c.stale, c.replied);
    GeoBalanced(c.isPrivate, c.known && !c.stale, c.replied);
    BalancedConcat({}, geo, Locked(GeoCfg, Read, []));
    BalancedConcat({}, entry, When(c.geoChecked, geo + Locked(GeoCfg, Read, [])));
  }

  /** The calls that look a name up in the global logger. */
  predicate LooksNameUp(c: Call) {
    c.LogTo? || c.SetLogsEnabled? || c.SetFlushIntervalSec?
  }

  /** The names that a call looks up in the global logger exist. */
  predicate NamesExist(c: Call) {
    LooksNameUp(c) ==> c.known
  }

  lemma LoggerCall(known: bool)
    ensures known ==> Balanced({}, LoggerScript(known))
    ensures !known ==> !Nests({}, LoggerScript(known))
    ensures LoggerScript(false) == WithMessage(Locked(Log, Read, []), 1)
  {
    BalancedLeaf({}, Log, Read);
    var nested := LoggerScript(false);
    assert nested[0] == Acquire(Log, Read) && nested[1..][0] == Acquire(Log, Read);
    assert !Above({} + {Log}, Log);
  }

  lemma WriterIsBalanced()
    ensures Balanced({}, LOG_WRITER)
  {
    WriterIsOrdered();
    OrderedIsNests({}, LOG_WRITER);
  }

  /** The calls that take one lock and nothing under it. */
  predicate IsLeaf(c: Call) {
    c.Shutdown? || c.ReadConfig? || c.NetEnumAddrs? || c.LocalAddresses? || c.GetAccessLevel? || c.NetId? || c.Lookup?
    || c.GeoConfigChange? || c.IpsRecord? || c.IpsRead? || c.ReadLogs?
  }

  lemma LeafIsBalanced(c: Call)
    requires IsLeaf(c)
    ensures Balanced({}, Script(c))
  {
    var first := Script(c)[0];
    BalancedLeaf({}, first.lock, first.mode);
    assert Script(c) == Locked(first.lock, first.mode, []);
  }

  lemma HandlerCallIsBalanced(private: bool, public: bool)
    ensures Balanced({}, Locked(Config, Write, MuxCalls(private, public)))
  {
    MuxCallsBalanced({} + {Config}, private, public);
    BalancedLocked({}, Config, Write, MuxCalls(private, public));
  }

  lemma CfgNetIsBalanced(configures: bool, private: bool, public: bool, restarts: bool)
    ensures Balanced({}, Locked(NetCfg, Write, When(configures, ConfigureScript(private, public, restarts))))
  {
    ConfigureBalanced({} + {NetCfg}, private, public, restarts);
    BalancedLocked({}, NetCfg, Write, When(configures, ConfigureScript(private, public, restarts)));
  }

  lemma OtherCallIsBalanced(c: Call)
    requires !LooksNameUp(c)
    ensures Balanced({}, Script(c))
  {
    match c
    case CfgNet(configures, private, public, restarts) => CfgNetIsBalanced(configures, private, public, restarts);
    case Configure(private, public, restarts) => ConfigureBalanced({}, private, public, restarts);
    case RegisterHandler(private, public) => HandlerCallIsBalanced(private, public);
    case RemoveHandler => HandlerCallIsBalanced(true, true);
    case GeoResolve(isPrivate, known, stale, replied) => GeoBalanced(isPrivate, known && !stale, replied);
    case ServeHttp(_, _, _, _, _, _) => ServeBalanced(c);
    case ChangeLogs => WriterIsBalanced();
    case _ => LeafIsBalanced(c);
  }

  lemma LookUpScript(c: Call)
    requires LooksNameUp(c)
    ensures Script(c) == LoggerScript(c.known)
  {
  }

  /** Every function of the server takes its locks in the one order and gives them all back, exactly
      when it does not look an unknown name up in the global logger. */
  lemma CallIsBalancedExactlyWhen(c: Call)
    ensures Balanced({}, Script(c)) <==> NamesExist(c)
    ensures Nests({}, Script(c)) <==> NamesExist(c)
  {
    if LooksNameUp(c) {
      LookUpScript(c);
      LoggerCall(c.known);
    } else {
      OtherCallIsBalanced(c);
    }
  }

  /** What a goroutine does: any calls, one after the other. */
  function Program(calls: seq<Call>): seq<Act> {
    if calls == [] then [] else Script(calls[0]) + Program(calls[1..])
  }

  ghost predicate AllNamesExist(calls: seq<Call>) {
    forall i :: 0 <= i < |calls| ==> NamesExist(calls[i])
  }

  lemma {:induction false} ProgramNests(calls: seq<Call>)
    ensures Nests({}, Program(calls)) <==> AllNamesExist(calls)
    ensures AllNamesExist(calls) ==> HeldAfter({}, Program(calls)) == {}
  {
    if calls != [] {
      CallIsBalancedExactlyWhen(calls[0]);
      ProgramNests(calls[1..]);
      NestsConcat({}, Script(calls[0]), Program(calls[1..]));
      assert AllNamesExist(calls) <==> NamesExist(calls[0]) && AllNamesExist(calls[1..]) by {
        assert forall i :: 1 <= i < |calls| ==> calls[i] == calls[1..][i - 1];
      }
    }
  }

  /** And so does every sequence of calls. */
  lemma ProgramIsOrderedExactlyWhen(calls: seq<Call>)
    ensures Ordered({}, Program(calls)) <==> AllNamesExist(calls)
  {
    ProgramNests(calls);
    OrderedIsNests({}, Program(calls));
  }

  /** A goroutine: its calls, and how many log messages it writes at each point of them. */
  datatype Work = Work(calls: seq<Call>, marks: seq<nat>)

  /** The messages fit the calls, no unknown name is looked up, and nothing is logged by a goroutine
      that is inside the logger. */
  ghost predicate WorkOk(w: Work) {
    |w.marks| == |Program(w.calls)| + 1 && AllNamesExist(w.calls) && QuietUnderLog(Program(w.calls), w.marks)
  }

  function WorkScript(w: Work): seq<Act> {
    if |w.marks| == |Program(w.calls)| + 1 then Chatty(Program(w.calls), w.marks) else Program(w.calls)
  }

  function WorkScripts(work: seq<Work>): seq<seq<Act>> {
    seq(|work|, i requires 0 <= i < |work| => WorkScript(work[i]))
  }

  /** However many goroutines make whatever calls, log whatever they do while holding whatever other
      locks, and interleave however they like: writers are exclusive, somebody can go on until
      everybody has finished, and the number of steps is bounded. */
  lemma CallsNeverDeadlock(work: seq<Work>, run: seq<State>, schedule: seq<nat>)
    requires forall i :: 0 <= i < |work| ==> WorkOk(work[i])
    requires Interleaving(run, schedule) && run[0] == Start(WorkScripts(work))
    ensures var last := run[|run| - 1];
            Exclusive(last)
            && (Finished(last) || exists i :: 0 <= i < |last| && CanStep(last, i))
            && |schedule| <= Remaining(run[0])
  {
    var scripts := WorkScripts(work);
    forall i | 0 <= i < |work|
      ensures Ordered({}, scripts[i])
    {
      assert WorkOk(work[i]);
      ProgramIsOrderedExactlyWhen(work[i].calls);
      ChattyIsOrderedExactlyWhen(Program(work[i].calls), work[i].marks);
    }
    NoDeadlock(scripts, run, schedule);
  }

  lemma UnknownNameCanGetStuck()
    ensures CanGetStuck(Start([LoggerScript(false), LOG_WRITER]))
  {
    var plain := Locked(Log, Read, []);
    BalancedLeaf({}, Log, Read);
    OrderedIsNests({}, plain);
    LoggerCall(false);
    assert plain[..1] == [Acquire(Log, Read)] && [Acquire(Log, Read)][1..] == [];
    assert HeldAfter({}, plain[..1]) == {} + {Log};
    MessageCanGetStuckExactlyWhen(plain, 1);
  }

  /** One call beside one change of the logs, a rotation say, can leave both waiting for ever exactly
      when the call looks an unknown name up in the global logger. */
  lemma UnknownNameDeadlocksExactlyWhen(c: Call)
    ensures CanGetStuck(Start([Script(c), Script(ChangeLogs)])) <==> !NamesExist(c)
  {
    assert Script(ChangeLogs) == LOG_WRITER;
    if NamesExist(c) {
      KnownNameNeverDeadlocks(c);
    } else {
      LookUpScript(c);
      UnknownNameCanGetStuck();
    }
  }

  lemma KnownNameNeverDeadlocks(c: Call)
    requires NamesExist(c)
    ensures !CanGetStuck(Start([Script(c), LOG_WRITER]))
  {
    CallIsBalancedExactlyWhen(c);
    OrderedIsNests({}, Script(c));
    WriterIsOrdered();
    OrderedNeverGetsStuck([Script(c), LOG_WRITER]);
  }
}
