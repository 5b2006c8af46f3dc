/** Which functions of the server can be at the same data at once, one of them writing it. */
module Races {
  import opened Locks
  import opened LockCalls
  import opened SharedData

  // ----- where the goroutines are -----

  /** A goroutine that runs this script from nothing, somewhere on its way. */
  ghost predicate OnTrack(g: Goroutine, script: seq<Act>) {
    exists n: nat :: n <= |script| && g.script == script[n..] && g.held == Holding(map[], script[..n])
  }

  lemma StepMovesOrAnnounces(g: Goroutine)
    requires g.script != []
    ensures var g' := StepGoroutine(g);
            (g'.script == g.script && g'.held == g.held)
            || (g'.script == g.script[1..] && g'.held == Holding(g.held, [g.script[0]]))
  {
    assert [g.script[0]][1..] == [];
  }

  lemma OneFurther(script: seq<Act>, n: nat)
    requires n < |script|
    ensures script[n..][0] == script[n] && script[n..][1..] == script[n + 1..]
    ensures Holding(map[], script[..n + 1]) == Holding(Holding(map[], script[..n]), [script[n]])
  {
    assert script[..n + 1] == script[..n] + [script[n]];
    HoldingConcat(map[], script[..n], [script[n]]);
  }

  lemma StepStaysOnTrack(g: Goroutine, script: seq<Act>)
    requires OnTrack(g, script) && g.script != []
    ensures OnTrack(StepGoroutine(g), script)
  {
    var n: nat :| n <= |script| && g.script == script[n..] && g.held == Holding(map[], script[..n]);
    OneFurther(script, n);
    StepMovesOrAnnounces(g);
    var g' := StepGoroutine(g);
    assert (g'.script == script[n..] && g'.held == Holding(map[], script[..n]))
           || (g'.script == script[n + 1..] && g'.held == Holding(map[], script[..n + 1]));
  }

  ghost predicate AllOnTrack(s: State, scripts: seq<seq<Act>>) {
    |s| == |scripts| && forall i :: 0 <= i < |s| ==> OnTrack(s[i], scripts[i])
  }

  lemma StartIsOnTrack(scripts: seq<seq<Act>>)
    ensures AllOnTrack(Start(scripts), scripts)
  {
    forall i | 0 <= i < |scripts|
      ensures OnTrack(Start(scripts)[i], scripts[i])
    {
      assert scripts[i][0..] == scripts[i] && scripts[i][..0] == [];
    }
  }

  lemma {:induction false} RunStaysOnTrack(run: seq<State>, schedule: seq<nat>, scripts: seq<seq<Act>>)
    requires Interleaving(run, schedule) && run[0] == Start(scripts)
    ensures AllOnTrack(run[|run| - 1], scripts)
    decreases |schedule|
  {
    if schedule == [] {
      StartIsOnTrack(scripts);
    } else {
      var n := |schedule| - 1;
      assert run[..n + 1][0] == run[0];
      RunStaysOnTrack(run[..n + 1], schedule[..n], scripts);
      StepStaysOnTrack(run[n][schedule[n]], scripts[schedule[n]]);
    }
  }

  lemma ReachedState(scripts: seq<seq<Act>>, s: State)
    requires (forall i :: 0 <= i < |scripts| ==> Ordered({}, scripts[i])) && CanReach(Start(scripts), s)
    ensures AllOnTrack(s, scripts) && StateOk(s)
  {
    var run, schedule :| Interleaving(run, schedule) && run[0] == Start(scripts) && run[|run| - 1] == s;
    RunStaysOnTrack(run, schedule, scripts);
    StartIsOk(scripts);
    RunIsOk(run, schedule);
  }

  // ----- races -----

  /** The goroutine has come to a use of data: to the item `p` of its body. */
  ghost predicate At(g: Goroutine, b: Body, p: nat) {
    p < |b| && b[p].Use? && !g.announced && g.script == Erase(b[p..])
  }

  predicate Clash(a: Item, b: Item) {
    a.Use? && b.Use? && a.data == b.data && (a.mode == Write || b.mode == Write)
  }

  /** Two goroutines that are at the same data at once, one of them to write it. */
  ghost predicate RaceAt(s: State, bodies: seq<Body>, i: nat, j: nat, p: nat, q: nat) {
    i < |s| && j < |s| && |bodies| == |s| && i != j
    && At(s[i], bodies[i], p) && At(s[j], bodies[j], q) && Clash(bodies[i][p], bodies[j][q])
  }

  function Concat(parts: seq<Body>): Body {
    if parts == [] then [] else parts[0] + Concat(parts[1..])
  }

  function BodiesOf(calls: seq<Call>): seq<Body> {
    seq(|calls|, i requires 0 <= i < |calls| => BodyOf(calls[i]))
  }

  /** What a goroutine does that makes these calls. */
  function WorkBody(calls: seq<Call>): Body {
    Concat(BodiesOf(calls))
  }

  function Bodies(work: seq<seq<Call>>): seq<Body> {
    seq(|work|, i requires 0 <= i < |work| => WorkBody(work[i]))
  }

  function Programs(work: seq<seq<Call>>): seq<seq<Act>> {
    seq(|work|, i requires 0 <= i < |work| => Program(work[i]))
  }

  /** Some interleaving of goroutines that make these calls leads to a race. */
  ghost predicate CanRace(work: seq<seq<Call>>) {
    exists s, i, j, p, q :: CanReach(Start(Programs(work)), s) && RaceAt(s, Bodies(work), i, j, p, q)
  }

  lemma {:induction false} ConcatErases(parts: seq<Body>, calls: seq<Call>)
    requires |parts| == |calls| && forall i :: 0 <= i < |parts| ==> Erase(parts[i]) == Script(calls[i])
    ensures Erase(Concat(parts)) == Program(calls)
    decreases |calls|
  {
    if parts != [] {
      ConcatErases(parts[1..], calls[1..]);
      EraseConcat(parts[0], Concat(parts[1..]));
    }
  }

  lemma WorkErases(calls: seq<Call>)
    ensures Erase(WorkBody(calls)) == Program(calls)
  {
    forall i | 0 <= i < |calls|
      ensures Erase(BodiesOf(calls)[i]) == Script(calls[i])
    {
      BodyErases(calls[i]);
    }
    ConcatErases(BodiesOf(calls), calls);
  }

  predicate Guarded(held: map<Lock, Mode>, d: Data, mode: Mode) {
    Guard(d) in held && (mode == Write ==> held[Guard(d)] == Write)
  }

  /** The locks that a body holds at one of its items. */
  function HeldAt(b: Body, p: nat): map<Lock, Mode>
    requires p < |b|
  {
    Holding(map[], Erase(b[..p]))
  }

  lemma SuffixDecides(script: seq<Act>, n: nat, before: seq<Act>, after: seq<Act>)
    requires n <= |script| && script == before + after && script[n..] == after
    ensures script[..n] == before
  {
    assert |after| == |script| - n;
    assert n == |before|;
  }

  lemma ErasedAt(b: Body, p: nat)
    requires p <= |b|
    ensures Erase(b) == Erase(b[..p]) + Erase(b[p..])
  {
    assert b == b[..p] + b[p..];
    EraseConcat(b[..p], b[p..]);
  }

  lemma HeldThere(g: Goroutine, b: Body, p: nat)
    requires OnTrack(g, Erase(b)) && At(g, b, p)
    ensures g.held == HeldAt(b, p)
  {
    var script := Erase(b);
    var n: nat :| n <= |script| && g.script == script[n..] && g.held == Holding(map[], script[..n]);
    ErasedAt(b, p);
    SuffixDecides(script, n, Erase(b[..p]), Erase(b[p..]));
  }

  /** Guarded uses of the same data do not race: the lock that guards it admits one writer alone. */
  lemma GuardedNeverRaces(s: State, i: nat, j: nat, x: Item, y: Item)
    requires StateOk(s) && i < |s| && j < |s| && i != j && Clash(x, y)
    requires Guarded(s[i].held, x.data, x.mode)
    ensures !Guarded(s[j].held, y.data, y.mode)
  {
    var l := Guard(x.data);
    assert HoldsFor(s[i], l, Write) ==> !Holds(s[j], l);
    assert HoldsFor(s[j], l, Write) ==> !Holds(s[i], l);
  }

  // ----- from programs to calls -----

  /** The body gives back what it takes. */
  ghost predicate IsNeutral(b: Body) {
    Holding(map[], Erase(b)) == map[]
  }

  lemma HeldLater(first: Body, rest: Body, k: nat)
    requires IsNeutral(first) && k < |rest|
    ensures HeldAt(first + rest, |first| + k) == HeldAt(rest, k)
  {
    assert (first + rest)[..|first| + k] == first + rest[..k];
    EraseConcat(first, rest[..k]);
    HoldingConcat(map[], Erase(first), Erase(rest[..k]));
  }

  lemma HeldEarlier(first: Body, rest: Body, k: nat)
    requires k < |first|
    ensures HeldAt(first + rest, k) == HeldAt(first, k)
  {
    assert (first + rest)[..k] == first[..k];
  }

  /** An item of a sequence of bodies is an item of one of them, with the same locks held. */
  lemma {:induction false} ItemOfPart(parts: seq<Body>, p: nat) returns (a: nat, k: nat)
    requires (forall i :: 0 <= i < |parts| ==> IsNeutral(parts[i])) && p < |Concat(parts)|
    ensures a < |parts| && k < |parts[a]| && Concat(parts)[p] == parts[a][k]
    ensures HeldAt(Concat(parts), p) == HeldAt(parts[a], k)
    decreases |parts|
  {
    var first, rest := parts[0], Concat(parts[1..]);
    if p < |first| {
      a, k := 0, p;
      HeldEarlier(first, rest, p);
    } else {
      a, k := ItemOfPart(parts[1..], p - |first|);
      HeldLater(first, rest, p - |first|);
      a := a + 1;
    }
  }

  lemma CallIsNeutral(c: Call)
    requires NamesExist(c)
    ensures IsNeutral(BodyOf(c))
  {
    EveryCallFits(c);
  }

  lemma {:induction false} ConcatSplits(a: seq<Body>, b: seq<Body>)
    ensures Concat(a + b) == Concat(a) + Concat(b)
  {
    if a == [] {
      assert a + b == b;
    } else {
      assert (a + b)[1..] == a[1..] + b;
      ConcatSplits(a[1..], b);
    }
  }

  /** And the other way round: the items of a part are items of the whole. */
  lemma PartAt(parts: seq<Body>, a: nat, p: nat) returns (at: nat)
    requires a < |parts| && p < |parts[a]|
    ensures at < |Concat(parts)| && Concat(parts)[at] == parts[a][p]
    ensures Concat(parts) == Concat(parts[..a]) + (parts[a][..p] + Concat(parts)[at..])
  {
    assert parts == parts[..a] + parts[a..];
    ConcatSplits(parts[..a], parts[a..]);
    CutAround(Concat(parts), Concat(parts[..a]), parts[a], Concat(parts[a..][1..]), p);
    at := |Concat(parts[..a])| + p;
  }

  lemma CutAround<T>(whole: seq<T>, earlier: seq<T>, c: seq<T>, later: seq<T>, p: nat)
    requires p < |c| && whole == earlier + (c + later)
    ensures var at := |earlier| + p;
            at < |whole| && whole[at] == c[p] && whole == earlier + (c[..p] + whole[at..])
  {
    assert whole[|earlier| + p..] == (c + later)[p..];
    assert c + later == c[..p] + (c + later)[p..];
  }

  // ----- which calls conflict -----

  /** Two uses of the same data, one of them to write it, that its lock does not keep apart. */
  predicate Collide(u: Access, v: Access) {
    u.data == v.data && (u.mode == Write || v.mode == Write)
    && !(Guarded(u.held, u.data, u.mode) && Guarded(v.held, v.data, v.mode))
  }

  /** The two calls have such uses. */
  ghost predicate Conflict(c: Call, d: Call) {
    exists u, v :: u in Accesses(c) && v in Accesses(d) && Collide(u, v)
  }

  /** The call asks for the geo data of a public host. */
  predicate AsksGeo(c: Call) {
    (c.GeoResolve? && !c.isPrivate) || (c.ServeHttp? && c.geoChecked && !c.isPrivate)
  }

  /** It finds the host in the cache, and reads the time of its answer. */
  predicate ReadsTime(c: Call) {
    AsksGeo(c) && c.known
  }

  /** It drops the time of a stale answer, or stores a new one. */
  predicate ChangesTime(c: Call) {
    AsksGeo(c) && ((c.known && c.stale) || (c.replied && !(c.known && !c.stale)))
  }

  /** It sets the flags of the muxes. */
  predicate SetsFlags(c: Call) {
    (c.Configure? && c.restarts) || (c.CfgNet? && c.configures && c.restarts)
  }

  /** What the first does outside the lock, or to write under a reader's lock, clashes with the second. */
  predicate ClashesWith(c: Call, d: Call) {
    (c.IpsRead? && d.IpsRecord?)
    || (c.ServeHttp? && SetsFlags(d))
    || (c.SetLogsEnabled? && (d.SetLogsEnabled? || d.LogTo?))
    || (ReadsTime(c) && ChangesTime(d))
  }

  /** The uses that the guarding lock does not protect. */
  predicate IsOpen(c: Call, u: Access) {
    (c.IpsRead? && u == Access(RequestRing, Read, map[]))
    || (c.ServeHttp? && u == Access(MuxFlags, Read, map[]))
    || (c.SetLogsEnabled? && u == Access(LogEnabled, Write, LOG_READ))
    || (ReadsTime(c) && u.data == GeoTimes && u.held == map[] && (u.mode == Write ==> c.stale))
  }

  /** Who uses the data that some call uses openly. */
  predicate Belongs(c: Call, u: Access) {
    match u.data
    case RequestRing => if u.mode == Write then c.IpsRecord? else c.IpsRead?
    case MuxFlags => if u.mode == Write then SetsFlags(c) else c.ServeHttp?
    case LogEnabled => if u.mode == Write then c.SetLogsEnabled? else c.LogTo?
    case GeoTimes => if u.mode == Write then ChangesTime(c) else ReadsTime(c)
    case _ => true
  }

  ghost predicate Explained(c: Call, u: Access) {
    Belongs(c, u) && (Guarded(u.held, u.data, u.mode) || IsOpen(c, u))
  }

  lemma ConfigureExplained(c: Call, held: map<Lock, Mode>, private: bool, public: bool, restarts: bool, u: Access)
    requires u in ConfigureUses(held, private, public, restarts) && (restarts ==> SetsFlags(c))
    ensures Explained(c, u)
  {
  }

  lemma SettingExplained(c: Call, u: Access)
    requires (c.CfgNet? || c.Configure? || c.RegisterHandler? || c.RemoveHandler?) && u in Accesses(c)
    ensures Explained(c, u)
  {
    match c
    case CfgNet(configures, private, public, restarts) =>
      if u != Access(AccessRights, Write, map[NetCfg := Write]) {
        ConfigureExplained(c, map[NetCfg := Write], private, public, restarts, u);
      }
    case Configure(private, public, restarts) => ConfigureExplained(c, map[], private, public, restarts, u);
    case _ =>
  }

  lemma GeoExplained(c: Call, isPrivate: bool, known: bool, stale: bool, replied: bool, u: Access)
    requires u in GeoUses(isPrivate, known, stale, replied)
    requires !isPrivate ==> AsksGeo(c) && c.known == known && c.stale == stale && c.replied == replied
    ensures Explained(c, u)
  {
  }

  lemma ServeExplained(c: Call, u: Access)
    requires c.ServeHttp? && u in Accesses(c)
    ensures Explained(c, u)
  {
    if c.geoChecked && u in GeoUses(c.isPrivate, c.known, c.stale, c.replied) {
      GeoExplained(c, c.isPrivate, c.known, c.stale, c.replied, u);
    } else {
      assert u in EntryUses(c.public) + {Access(GeoSettings, Read, GEO_READ)};
    }
  }

  lemma LeafExplained(c: Call, u: Access)
    requires IsLeaf(c) && !c.IpsRead? && u == LeafUse(c)
    ensures Explained(c, u)
  {
  }

  lemma LoggerExplained(c: Call, u: Access)
    requires LooksNameUp(c) && u in Accesses(c)
    ensures Explained(c, u)
  {
  }

  /** Every use is guarded but for those. */
  lemma EveryUseExplained(c: Call, u: Access)
    requires NamesExist(c) && u in Accesses(c)
    ensures Explained(c, u)
  {
    match c
    case CfgNet(_, _, _, _) => SettingExplained(c, u);
    case Configure(_, _, _) => SettingExplained(c, u);
    case RegisterHandler(_, _) => SettingExplained(c, u);
    case RemoveHandler => SettingExplained(c, u);
    case GeoResolve(isPrivate, known, stale, replied) => GeoExplained(c, isPrivate, known, stale, replied, u);
    case ServeHttp(_, _, _, _, _, _) => ServeExplained(c, u);
    case LogTo(_) => LoggerExplained(c, u);
    case SetLogsEnabled(_) => LoggerExplained(c, u);
    case SetFlushIntervalSec(_) => LoggerExplained(c, u);
    case IpsRead =>
    case ChangeLogs =>
    case _ => LeafExplained(c, u);
  }

  lemma ExplainedClash(c: Call, d: Call, u: Access, v: Access)
    requires Explained(c, u) && Explained(d, v) && Collide(u, v)
    ensures ClashesWith(c, d) || ClashesWith(d, c)
  {
    if IsOpen(c, u) {
      OpenClash(c, d, u, v);
    } else {
      OpenClash(d, c, v, u);
    }
  }

  lemma OpenClash(c: Call, d: Call, u: Access, v: Access)
    requires IsOpen(c, u) && Belongs(c, u) && Belongs(d, v) && u.data == v.data && (u.mode == Write || v.mode == Write)
    ensures ClashesWith(c, d) || ClashesWith(d, c)
  {
  }

  lemma CollisionIsClash(c: Call, d: Call, u: Access, v: Access)
    requires NamesExist(c) && NamesExist(d) && u in Accesses(c) && v in Accesses(d) && Collide(u, v)
    ensures ClashesWith(c, d) || ClashesWith(d, c)
  {
    EveryUseExplained(c, u);
    EveryUseExplained(d, v);
    ExplainedClash(c, d, u, v);
  }

  /** A use that a call makes openly, and one of the other call that clashes with it. */
  lemma ClashHasUses(c: Call, d: Call) returns (u: Access, v: Access)
    requires NamesExist(c) && NamesExist(d) && ClashesWith(c, d)
    ensures u in Accesses(c) && v in Accesses(d) && u.data == v.data && (u.mode == Write || v.mode == Write)
    ensures IsOpen(c, u)
  {
    if c.IpsRead? && d.IpsRecord? {
      u, v := Access(RequestRing, Read, map[]), Access(RequestRing, Write, map[Ips := Write]);
    } else if c.ServeHttp? && SetsFlags(d) {
      u := Access(MuxFlags, Read, map[]);
      v := Access(MuxFlags, Write, if d.CfgNet? then map[NetCfg := Write][Config := Write] else map[Config := Write]);
    } else if c.SetLogsEnabled? && (d.SetLogsEnabled? || d.LogTo?) {
      u, v := Access(LogEnabled, Write, LOG_READ), Access(LogEnabled, if d.LogTo? then Read else Write, LOG_READ);
    } else {
      u := Access(GeoTimes, Read, map[]);
      v := Access(GeoTimes, Write, if d.known && d.stale then map[] else GEO_WRITE);
    }
  }

  lemma OpenIsUnguarded(c: Call, u: Access)
    requires IsOpen(c, u)
    ensures !Guarded(u.held, u.data, u.mode)
  {
  }

  lemma ClashIsConflict(c: Call, d: Call)
    requires NamesExist(c) && NamesExist(d) && ClashesWith(c, d)
    ensures Conflict(c, d) && Conflict(d, c)
  {
    var u, v := ClashHasUses(c, d);
    OpenIsUnguarded(c, u);
    assert Collide(u, v) && Collide(v, u);
  }

  /** Of the functions of the server, exactly these pairs conflict: a reader of the request ring with its
      writer, a request with a change of the mux flags, two that use a log's switch if one sets it, and
      two geo lookups if one finds its host in the cache and the other changes a time. */
  lemma ConflictExactlyWhen(c: Call, d: Call)
    requires NamesExist(c) && NamesExist(d)
    ensures Conflict(c, d) <==> ClashesWith(c, d) || ClashesWith(d, c)
  {
    if ClashesWith(c, d) {
      ClashIsConflict(c, d);
    } else if ClashesWith(d, c) {
      ClashIsConflict(d, c);
    } else if u, v :| u in Accesses(c) && v in Accesses(d) && Collide(u, v) {
      CollisionIsClash(c, d, u, v);
    }
  }

  // ----- a race comes from a conflict -----

  lemma {:induction false} UseAt(held: map<Lock, Mode>, b: Body, p: nat)
    requires p < |b| && b[p].Use?
    ensures Access(b[p].data, b[p].mode, Holding(held, Erase(b[..p]))) in Uses(held, b)
    decreases p
  {
    if p == 0 {
      assert b[..0] == [];
    } else {
      var next := if b[0].Do? then Holding(held, [b[0].act]) else held;
      UseAt(next, b[1..], p - 1);
      assert b[..p][1..] == b[1..][..p - 1] && b[..p][0] == b[0];
      EraseFirst(b[..p]);
      if b[0].Do? {
        HoldingConcat(held, [b[0].act], Erase(b[1..][..p - 1]));
      }
    }
  }

  lemma {:induction false} UsePoint(held: map<Lock, Mode>, b: Body, u: Access) returns (p: nat)
    requires u in Uses(held, b)
    ensures p < |b| && b[p] == Use(u.data, u.mode) && Holding(held, Erase(b[..p])) == u.held
    decreases |b|
  {
    if b[0] == Use(u.data, u.mode) && held == u.held {
      p := 0;
      assert b[..0] == [];
    } else {
      var next := if b[0].Do? then Holding(held, [b[0].act]) else held;
      p := UsePoint(next, b[1..], u);
      assert b[..p + 1][1..] == b[1..][..p] && b[..p + 1][0] == b[0];
      EraseFirst(b[..p + 1]);
      if b[0].Do? {
        HoldingConcat(held, [b[0].act], Erase(b[1..][..p]));
      }
      p := p + 1;
    }
  }

  ghost predicate WorkNamesExist(work: seq<seq<Call>>) {
    forall i :: 0 <= i < |work| ==> AllNamesExist(work[i])
  }

  lemma ProgramsAreOrdered(work: seq<seq<Call>>)
    requires WorkNamesExist(work)
    ensures forall i :: 0 <= i < |work| ==> Ordered({}, Programs(work)[i])
  {
    forall i | 0 <= i < |work|
      ensures Ordered({}, Programs(work)[i])
    {
      ProgramIsOrderedExactlyWhen(work[i]);
    }
  }

  /** Two goroutines have calls among theirs that clash. */
  ghost predicate HasClash(work: seq<seq<Call>>, i: nat, j: nat, a: nat, b: nat) {
    i < |work| && j < |work| && i != j && a < |work[i]| && b < |work[j]| && ClashesWith(work[i][a], work[j][b])
  }

  lemma HeldInCall(g: Goroutine, calls: seq<Call>, p: nat) returns (a: nat, u: Access)
    requires AllNamesExist(calls) && OnTrack(g, Program(calls)) && At(g, WorkBody(calls), p)
    ensures a < |calls| && u in Accesses(calls[a])
    ensures u == Access(WorkBody(calls)[p].data, WorkBody(calls)[p].mode, g.held)
  {
    WorkErases(calls);
    HeldThere(g, WorkBody(calls), p);
    forall i | 0 <= i < |calls|
      ensures IsNeutral(BodiesOf(calls)[i])
    {
      CallIsNeutral(calls[i]);
    }
    var k;
    a, k := ItemOfPart(BodiesOf(calls), p);
    u := Access(WorkBody(calls)[p].data, WorkBody(calls)[p].mode, g.held);
    UseIsAccess(calls[a], k);
  }

  lemma UseIsAccess(c: Call, k: nat)
    requires NamesExist(c) && k < |BodyOf(c)| && BodyOf(c)[k].Use?
    ensures Access(BodyOf(c)[k].data, BodyOf(c)[k].mode, HeldAt(BodyOf(c), k)) in Accesses(c)
  {
    EveryCallFits(c);
    UseAt(map[], BodyOf(c), k);
  }

  lemma RaceComesFromClash(work: seq<seq<Call>>, s: State, i: nat, j: nat, p: nat, q: nat)
    requires WorkNamesExist(work) && CanReach(Start(Programs(work)), s) && RaceAt(s, Bodies(work), i, j, p, q)
    ensures exists a: nat, b: nat :: HasClash(work, i, j, a, b) || HasClash(work, j, i, b, a)
  {
    ProgramsAreOrdered(work);
    ReachedState(Programs(work), s);
    var a, u := HeldInCall(s[i], work[i], p);
    var b, v := HeldInCall(s[j], work[j], q);
    if Guarded(u.held, u.data, u.mode) {
      GuardedNeverRaces(s, i, j, Bodies(work)[i][p], Bodies(work)[j][q]);
    }
    assert Collide(u, v);
    CollisionIsClash(work[i][a], work[j][b], u, v);
    assert HasClash(work, i, j, a, b) || HasClash(work, j, i, b, a);
  }

  // ----- and a clash leads to a race -----

  /** Who holds only this stands in nobody's way there. */
  ghost predicate Fits(held: map<Lock, Mode>, script: seq<Act>) {
    forall act :: act in script && act.Acquire? && act.lock in held ==> act.mode == Read && held[act.lock] == Read
  }

  lemma LogSwitchPoint(c: Call)
    requires (c.SetLogsEnabled? || c.LogTo?) && c.known
    ensures |BodyOf(c)| > 2 && BodyOf(c)[2] == Use(LogEnabled, if c.LogTo? then Read else Write)
    ensures Erase(BodyOf(c)[..2]) == [Acquire(Log, Read)] && HeldAt(BodyOf(c), 2) == LOG_READ
  {
    var pre := BodyOf(c)[..2];
    assert pre == [Do(Acquire(Log, Read)), Use(LogServices, Read)];
    assert pre[1..] == [Use(LogServices, Read)] && pre[1..][1..] == [];
    EraseFirst(pre);
    EraseFirst(pre[1..]);
    assert Erase(pre) == [Acquire(Log, Read)] + [];
    assert [Acquire(Log, Read)][1..] == [];
  }

  lemma OpenPoints(c: Call, d: Call, u: Access, v: Access) returns (p: nat, q: nat)
    requires NamesExist(c) && NamesExist(d) && u in Accesses(c) && v in Accesses(d) && u.held == map[]
    ensures p < |BodyOf(c)| && BodyOf(c)[p] == Use(u.data, u.mode)
    ensures q < |BodyOf(d)| && BodyOf(d)[q] == Use(v.data, v.mode)
    ensures Fits(HeldAt(BodyOf(c), p), Erase(BodyOf(d)[..q]))
  {
    EveryCallFits(c);
    EveryCallFits(d);
    p := UsePoint(map[], BodyOf(c), u);
    q := UsePoint(map[], BodyOf(d), v);
  }

  /** The items where two clashing calls race; the first waits at its own, and the second can get there. */
  lemma ClashPoints(c: Call, d: Call) returns (p: nat, q: nat)
    requires NamesExist(c) && NamesExist(d) && ClashesWith(c, d)
    ensures p < |BodyOf(c)| && q < |BodyOf(d)| && Clash(BodyOf(c)[p], BodyOf(d)[q])
    ensures Fits(HeldAt(BodyOf(c), p), Erase(BodyOf(d)[..q]))
  {
    if c.SetLogsEnabled? {
      LogSwitchPoint(c);
      LogSwitchPoint(d);
      p, q := 2, 2;
    } else {
      var u, v := ClashHasUses(c, d);
      p, q := OpenPoints(c, d, u, v);
    }
  }

  lemma CutNests(before: seq<Act>, begun: seq<Act>, rest: seq<Act>)
    requires Nests({}, before + (begun + rest)) && HeldAfter({}, before) == {}
    ensures Nests({}, before) && Nests({}, begun)
  {
    NestsConcat({}, before, begun + rest);
    NestsConcat({}, begun, rest);
  }

  lemma ProgramIsNeutral(calls: seq<Call>)
    requires AllNamesExist(calls)
    ensures Nests({}, Program(calls)) && HeldAfter({}, Program(calls)) == {} && Holding(map[], Program(calls)) == map[]
  {
    var none: map<Lock, Mode> := map[];
    assert none.Keys == {};
    ProgramNests(calls);
    HoldingKeys(none, Program(calls));
  }

  lemma ErasedCut(earlier: Body, first: Body, last: Body)
    ensures Erase(earlier + (first + last)) == Erase(earlier) + (Erase(first) + Erase(last))
  {
    EraseConcat(first, last);
    EraseConcat(earlier, first + last);
  }

  /** A program up to one of its calls, up to an item of that call, and the rest. */
  lemma CutAt(calls: seq<Call>, a: nat, p: nat) returns (at: nat, before: seq<Act>, begun: seq<Act>, rest: seq<Act>)
    requires AllNamesExist(calls) && a < |calls| && p < |BodyOf(calls[a])|
    ensures begun == Erase(BodyOf(calls[a])[..p]) && Program(calls) == before + (begun + rest)
    ensures at < |WorkBody(calls)| && WorkBody(calls)[at] == BodyOf(calls[a])[p] && rest == Erase(WorkBody(calls)[at..])
    ensures Holding(map[], before) == map[] && HeldAfter({}, before) == {} && Nests({}, before) && Nests({}, begun)
  {
    var parts := BodiesOf(calls);
    at := PartAt(parts, a, p);
    var first, last := parts[a][..p], Concat(parts)[at..];
    before, begun, rest := Program(calls[..a]), Erase(first), Erase(last);
    assert parts[..a] == BodiesOf(calls[..a]);
    ErasedCut(Concat(parts[..a]), first, last);
    WorkErases(calls);
    WorkErases(calls[..a]);
    ProgramIsNeutral(calls);
    ProgramIsNeutral(calls[..a]);
    CutNests(before, begun, rest);
  }

  /** A goroutine runs on as far as one likes while the others hold what fits. */
  lemma RunsPast(from: State, s: State, i: nat, pre: seq<Act>, rest: seq<Act>, held: map<Lock, Mode>)
    requires CanReach(from, s) && i < |s| && s[i] == Goroutine(pre + rest, held, false) && Nests(held.Keys, pre)
    requires forall j :: 0 <= j < |s| && j != i ==> !s[j].announced && Fits(s[j].held, pre)
    ensures CanReach(from, s[i := Goroutine(rest, Holding(held, pre), false)])
  {
    var t := RunsAlone(from, s, i, pre, rest, held);
  }

  lemma FreshFits(script: seq<Act>)
    ensures Fits(map[], script)
  {
  }

  ghost predicate AllFreshBut(s: State, i: nat) {
    forall j :: 0 <= j < |s| && j != i ==> !s[j].announced && s[j].held == map[]
  }

  lemma LastUpdateCounts<T>(s: seq<T>, i: nat, j: nat, x: T, y: T, z: T)
    requires i < |s| && j < |s| && i != j
    ensures s[j := x][i := y][j := z] == s[i := y][j := z]
  {
  }

  /** One of two goroutines that have not begun makes its first calls, the other runs to where it is to
      stop, and the first goes on to where it is to stop. */
  lemma TwoMeet(start: State, i: nat, j: nat, before1: seq<Act>, begun1: seq<Act>, rest1: seq<Act>,
                before2: seq<Act>, begun2: seq<Act>, rest2: seq<Act>)
    requires i < |start| && j < |start| && i != j && AllFreshBut(start, i) && AllFreshBut(start, j)
    requires start[i] == Fresh(before1 + (begun1 + rest1)) && start[j] == Fresh(before2 + (begun2 + rest2))
    requires Holding(map[], before1) == map[] && HeldAfter({}, before1) == {} && Nests({}, before1) && Nests({}, begun1)
    requires Holding(map[], before2) == map[] && Nests({}, before2) && Nests({}, begun2)
    requires Fits(Holding(map[], begun1), begun2)
    ensures CanReach(start, start[i := Goroutine(rest1, Holding(map[], begun1), false)]
                                 [j := Goroutine(rest2, Holding(map[], begun2), false)])
  {
    var none: map<Lock, Mode> := map[];
    assert none.Keys == {};
    ReachSelf(start);
    FreshFits(before2);
    RunsPast(start, start, j, before2, begun2 + rest2, none);
    var s1 := start[j := Goroutine(begun2 + rest2, none, false)];
    RunsFromFresh(start, s1, i, before1, begun1, rest1);
    var s2 := s1[i := Goroutine(rest1, Holding(none, begun1), false)];
    FreshFits(begun2);
    RunsPast(start, s2, j, begun2, rest2, none);
    LastUpdateCounts(start, i, j, s1[j], s2[i], Goroutine(rest2, Holding(none, begun2), false));
  }

  lemma RunsFromFresh(from: State, s: State, i: nat, before: seq<Act>, begun: seq<Act>, rest: seq<Act>)
    requires CanReach(from, s) && i < |s| && s[i] == Fresh(before + (begun + rest)) && AllFreshBut(s, i)
    requires Holding(map[], before) == map[] && HeldAfter({}, before) == {} && Nests({}, before) && Nests({}, begun)
    ensures CanReach(from, s[i := Goroutine(rest, Holding(map[], begun), false)])
  {
    var none: map<Lock, Mode> := map[];
    assert none.Keys == {};
    var pre := before + begun;
    assert before + (begun + rest) == pre + rest;
    NestsConcat({}, before, begun);
    HoldingConcat(none, before, begun);
    FreshFits(pre);
    RunsPast(from, s, i, pre, rest, none);
  }

  lemma RaceFound(work: seq<seq<Call>>, s: State, i: nat, j: nat, p: nat, q: nat)
    requires CanReach(Start(Programs(work)), s) && |s| == |work| && i < |s| && j < |s| && i != j
    requires At(s[i], WorkBody(work[i]), p) && At(s[j], WorkBody(work[j]), q)
    requires Clash(WorkBody(work[i])[p], WorkBody(work[j])[q])
    ensures CanRace(work)
  {
    assert RaceAt(s, Bodies(work), i, j, p, q);
  }

  /** A program cut before one of its uses. */
  ghost predicate CutsAt(calls: seq<Call>, at: nat, before: seq<Act>, begun: seq<Act>, rest: seq<Act>) {
    Program(calls) == before + (begun + rest)
    && at < |WorkBody(calls)| && WorkBody(calls)[at].Use? && rest == Erase(WorkBody(calls)[at..])
    && Holding(map[], before) == map[] && HeldAfter({}, before) == {} && Nests({}, before) && Nests({}, begun)
  }

  lemma CutsMeet(work: seq<seq<Call>>, i: nat, j: nat, at1: nat, before1: seq<Act>, begun1: seq<Act>, rest1: seq<Act>,
                 at2: nat, before2: seq<Act>, begun2: seq<Act>, rest2: seq<Act>)
    requires i < |work| && j < |work| && i != j
    requires CutsAt(work[i], at1, before1, begun1, rest1) && CutsAt(work[j], at2, before2, begun2, rest2)
    requires Clash(WorkBody(work[i])[at1], WorkBody(work[j])[at2]) && Fits(Holding(map[], begun1), begun2)
    ensures CanRace(work)
  {
    var start := Start(Programs(work));
    TwoMeet(start, i, j, before1, begun1, rest1, before2, begun2, rest2);
    var s := start[i := Goroutine(rest1, Holding(map[], begun1), false)]
                  [j := Goroutine(rest2, Holding(map[], begun2), false)];
    RaceFound(work, s, i, j, at1, at2);
  }

  lemma ClashLeadsToRace(work: seq<seq<Call>>, i: nat, j: nat, a: nat, b: nat)
    requires WorkNamesExist(work) && HasClash(work, i, j, a, b)
    ensures CanRace(work)
  {
    var p, q := ClashPoints(work[i][a], work[j][b]);
    var at1, before1, begun1, rest1 := CutAt(work[i], a, p);
    var at2, before2, begun2, rest2 := CutAt(work[j], b, q);
    CutsMeet(work, i, j, at1, before1, begun1, rest1, at2, before2, begun2, rest2);
  }

  /** However many goroutines make whatever calls and interleave however they like: two of them can be at
      the same data at once, one to write it, exactly when two of them have calls that clash. All other
      data, and those four in all other calls, are safe. */
  lemma RacesExactlyWhen(work: seq<seq<Call>>)
    requires WorkNamesExist(work)
    ensures CanRace(work) <==> exists i: nat, j: nat, a: nat, b: nat :: HasClash(work, i, j, a, b)
  {
    if i: nat, j: nat, a: nat, b: nat :| HasClash(work, i, j, a, b) {
      ClashLeadsToRace(work, i, j, a, b);
    } else if CanRace(work) {
      var s, i, j, p, q :| CanReach(Start(Programs(work)), s) && RaceAt(s, Bodies(work), i, j, p, q);
      RaceComesFromClash(work, s, i, j, p, q);
    }
  }
}
