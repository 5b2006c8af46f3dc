/** The locks of the server and goroutines that contend for them, as a transition system over Go's
    readers-writer locks: a waiting writer keeps new readers out. */
module Locks {

  datatype Lock = NetCfg | Config | LocalAddrs | PrivateMux | PublicMux | GeoCfg | Ips | Log

  datatype Mode = Read | Write

  datatype Act = Acquire(lock: Lock, mode: Mode) | Release(lock: Lock)

  /** The order in which nested locks are taken. */
  function Rank(l: Lock): nat {
    match l
    case NetCfg => 0
    case Config => 1
    case LocalAddrs => 2
    case PrivateMux => 2
    case PublicMux => 2
    case GeoCfg => 2
    case Ips => 2
    case Log => 3
  }

  predicate Above(held: set<Lock>, l: Lock) {
    forall h :: h in held ==> Rank(h) < Rank(l)
  }

  /** A script takes only locks above all it holds, releases only what it holds, and ends with
      nothing held. Taking a lock again while holding it is out of order. */
  predicate Ordered(held: set<Lock>, script: seq<Act>)
    decreases |script|
  {
    if script == [] then held == {}
    else match script[0]
      case Acquire(l, _) => Above(held, l) && Ordered(held + {l}, script[1..])
      case Release(l) => l in held && Ordered(held - {l}, script[1..])
  }

  /** The locks held after part of a script. */
  function HeldAfter(held: set<Lock>, script: seq<Act>): set<Lock>
    decreases |script|
  {
    if script == [] then held
    else match script[0]
      case Acquire(l, _) => HeldAfter(held + {l}, script[1..])
      case Release(l) => HeldAfter(held - {l}, script[1..])
  }

  /** A piece of script that may run while `held` is held and gives back what it takes. */
  predicate Nests(held: set<Lock>, piece: seq<Act>)
    decreases |piece|
  {
    if piece == [] then true
    else match piece[0]
      case Acquire(l, _) => Above(held, l) && Nests(held + {l}, piece[1..])
      case Release(l) => l in held && Nests(held - {l}, piece[1..])
  }

  lemma {:induction false} NestsConcat(held: set<Lock>, a: seq<Act>, b: seq<Act>)
    ensures Nests(held, a + b) <==> Nests(held, a) && Nests(HeldAfter(held, a), b)
    ensures HeldAfter(held, a + b) == HeldAfter(HeldAfter(held, a), b)
    decreases |a|
  {
    if a == [] {
      assert a + b == b;
    } else {
      assert (a + b)[1..] == a[1..] + b;
      match a[0]
      case Acquire(l, _) => NestsConcat(held + {l}, a[1..], b);
      case Release(l) => NestsConcat(held - {l}, a[1..], b);
    }
  }

  lemma {:induction false} OrderedIsNests(held: set<Lock>, script: seq<Act>)
    ensures Ordered(held, script) <==> Nests(held, script) && HeldAfter(held, script) == {}
    decreases |script|
  {
    if script != [] {
      match script[0]
      case Acquire(l, _) => OrderedIsNests(held + {l}, script[1..]);
      case Release(l) => OrderedIsNests(held - {l}, script[1..]);
    }
  }

  ghost predicate Balanced(held: set<Lock>, piece: seq<Act>) {
    Nests(held, piece) && HeldAfter(held, piece) == held
  }

  function Locked(l: Lock, mode: Mode, body: seq<Act>): seq<Act> {
    [Acquire(l, mode)] + body + [Release(l)]
  }

  lemma BalancedConcat(held: set<Lock>, a: seq<Act>, b: seq<Act>)
    requires Balanced(held, a) && Balanced(held, b)
    ensures Balanced(held, a + b)
  {
    NestsConcat(held, a, b);
  }

  lemma BalancedLocked(held: set<Lock>, l: Lock, mode: Mode, body: seq<Act>)
    requires Above(held, l) && Balanced(held + {l}, body)
    ensures Balanced(held, Locked(l, mode, body))
  {
    var inner := body + [Release(l)];
    NestsConcat(held + {l}, body, [Release(l)]);
    assert Locked(l, mode, body) == [Acquire(l, mode)] + inner;
    assert ([Acquire(l, mode)] + inner)[1..] == inner;
    assert held + {l} - {l} == held;
  }

  lemma BalancedLeaf(held: set<Lock>, l: Lock, mode: Mode)
    requires Above(held, l)
    ensures Balanced(held, Locked(l, mode, []))
  {
    BalancedLocked(held, l, mode, []);
  }

  // ----- goroutines and interleavings -----

  /** A goroutine: what is left to do, what it holds, and whether it has announced itself as the
      writer of the lock it is about to take. */
  datatype Goroutine = Goroutine(script: seq<Act>, held: map<Lock, Mode>, announced: bool)

  type State = seq<Goroutine>

  predicate Holds(g: Goroutine, l: Lock) {
    l in g.held
  }

  predicate HoldsFor(g: Goroutine, l: Lock, mode: Mode) {
    l in g.held && g.held[l] == mode
  }

  predicate Announced(g: Goroutine, l: Lock) {
    g.announced && g.script != [] && g.script[0] == Acquire(l, Write)
  }

  predicate NoWriter(s: State, l: Lock) {
    forall j :: 0 <= j < |s| ==> !HoldsFor(s[j], l, Write) && !Announced(s[j], l)
  }

  predicate NoReader(s: State, l: Lock) {
    forall j :: 0 <= j < |s| ==> !HoldsFor(s[j], l, Read)
  }

  /** Whether goroutine `i` can take its next step: a release always; a reader and a new writer when
      no writer is in or announced; an announced writer when the readers have left. */
  predicate CanStep(s: State, i: nat)
    requires i < |s|
  {
    var g := s[i];
    g.script != [] &&
    match g.script[0]
    case Release(_) => true
    case Acquire(l, Read) => NoWriter(s, l)
    case Acquire(l, Write) => if g.announced then NoReader(s, l) else NoWriter(s, l)
  }

  function StepGoroutine(g: Goroutine): Goroutine
    requires g.script != []
  {
    match g.script[0]
    case Release(l) => Goroutine(g.script[1..], g.held - {l}, false)
    case Acquire(l, Read) => Goroutine(g.script[1..], g.held[l := Read], false)
    case Acquire(l, Write) =>
      if g.announced then Goroutine(g.script[1..], g.held[l := Write], false) else g.(announced := true)
  }

  function Step(s: State, i: nat): State
    requires i < |s| && s[i].script != []
  {
    s[i := StepGoroutine(s[i])]
  }

  ghost predicate GoroutineOk(g: Goroutine) {
    Ordered(g.held.Keys, g.script)
    && (g.announced ==> g.script != [] && g.script[0].Acquire? && g.script[0].mode == Write)
  }

  /** A writer, in or announced, shares the lock with no other writer, and when in with nobody. */
  ghost predicate Exclusive(s: State) {
    forall i, j, l :: 0 <= i < |s| && 0 <= j < |s| && i != j ==>
      (HoldsFor(s[i], l, Write) ==> !Holds(s[j], l) && !Announced(s[j], l))
      && (Announced(s[i], l) ==> !HoldsFor(s[j], l, Write) && !Announced(s[j], l))
  }

  ghost predicate StateOk(s: State) {
    (forall i :: 0 <= i < |s| ==> GoroutineOk(s[i])) && Exclusive(s)
  }

  lemma StepKeepsGoroutineOk(g: Goroutine)
    requires GoroutineOk(g) && g.script != []
    ensures GoroutineOk(StepGoroutine(g))
  {
    var g' := StepGoroutine(g);
    match g.script[0]
    case Release(l) => assert g'.held.Keys == g.held.Keys - {l};
    case Acquire(l, _) => assert g.held[l := Read].Keys == g.held[l := Write].Keys == g.held.Keys + {l};
  }

  lemma StepKeepsExclusive(s: State, i: nat)
    requires StateOk(s) && i < |s| && CanStep(s, i)
    ensures Exclusive(Step(s, i))
  {
  }

  /** Every step of every goroutine keeps the locks exclusive and the goroutines in order. */
  lemma StepKeepsStateOk(s: State, i: nat)
    requires StateOk(s) && i < |s| && CanStep(s, i)
    ensures StateOk(Step(s, i))
  {
    StepKeepsGoroutineOk(s[i]);
    StepKeepsExclusive(s, i);
  }

  /** Readers let each other in: of two goroutines that can go on to read a lock, neither keeps the other
      from it, and they hold it together. */
  lemma ReadersShare(s: State, i: nat, j: nat, l: Lock)
    requires i < |s| && j < |s| && i != j && CanStep(s, i) && CanStep(s, j)
    requires s[i].script[0] == s[j].script[0] == Acquire(l, Read)
    ensures CanStep(Step(s, i), j)
    ensures var t := Step(Step(s, i), j); HoldsFor(t[i], l, Read) && HoldsFor(t[j], l, Read)
  {
  }

  /** A goroutine that has come to a lock is kept from reading it only by a writer, in or announced, and
      from announcing itself likewise; an announced writer waits for readers alone. */
  lemma WhoIsKeptOut(s: State, i: nat)
    requires StateOk(s) && i < |s| && s[i].script != [] && s[i].script[0].Acquire?
    ensures var l := s[i].script[0].lock;
            !CanStep(s, i) <==>
            exists j :: 0 <= j < |s| && j != i
                        && if s[i].announced then HoldsFor(s[j], l, Read)
                           else HoldsFor(s[j], l, Write) || Announced(s[j], l)
  {
  }

  // ----- progress -----

  predicate Finished(s: State) {
    forall i :: 0 <= i < |s| ==> s[i].script == []
  }

  ghost predicate Stuck(s: State) {
    !Finished(s) && forall i :: 0 <= i < |s| ==> !CanStep(s, i)
  }

  /** A goroutine that waits, for a lock of the highest rank anyone waits for. */
  lemma {:induction false} HighestWaiter(s: State, n: nat) returns (i: nat)
    requires n <= |s| && exists k :: 0 <= k < n && s[k].script != []
    requires forall k :: 0 <= k < n && s[k].script != [] ==> s[k].script[0].Acquire?
    ensures i < n && s[i].script != []
    ensures forall k :: 0 <= k < n && s[k].script != [] ==> Rank(s[k].script[0].lock) <= Rank(s[i].script[0].lock)
    decreases n
  {
    if exists k :: 0 <= k < n - 1 && s[k].script != [] {
      i := HighestWaiter(s, n - 1);
      if s[n - 1].script != [] && Rank(s[n - 1].script[0].lock) > Rank(s[i].script[0].lock) {
        i := n - 1;
      }
    } else {
      i := n - 1;
    }
  }

  /** Who holds a lock and waits, waits for a lock above it. */
  lemma HolderWaitsAbove(g: Goroutine, l: Lock)
    requires GoroutineOk(g) && Holds(g, l)
    ensures g.script != [] && (g.script[0].Acquire? ==> Rank(g.script[0].lock) > Rank(l))
  {
  }

  /** No state that satisfies the invariant is stuck: whoever blocks the highest waiter would have
      to wait even higher. */
  lemma NeverStuck(s: State)
    requires StateOk(s)
    ensures !Stuck(s)
  {
    if Stuck(s) {
      forall k | 0 <= k < |s| && s[k].script != []
        ensures s[k].script[0].Acquire?
      {
        assert !CanStep(s, k);
      }
      var i := HighestWaiter(s, |s|);
      var l := s[i].script[0].lock;
      forall k | 0 <= k < |s|
        ensures !Holds(s[k], l)
      {
        if Holds(s[k], l) {
          HolderWaitsAbove(s[k], l);
        }
      }
      if k :| 0 <= k < |s| && Announced(s[k], l) {
        assert CanStep(s, k);
      } else {
        assert CanStep(s, i);
      }
    }
  }

  // ----- whole runs -----

  /** A goroutine before its first step. */
  function Fresh(script: seq<Act>): Goroutine {
    Goroutine(script, map[], false)
  }

  /** The goroutines before any has taken a step. */
  function Start(scripts: seq<seq<Act>>): State {
    seq(|scripts|, i requires 0 <= i < |scripts| => Fresh(scripts[i]))
  }

  /** A run: at each step some goroutine that can step does. */
  ghost predicate Interleaving(run: seq<State>, schedule: seq<nat>) {
    |run| == |schedule| + 1
    && forall k :: 0 <= k < |schedule| ==>
         schedule[k] < |run[k]| && CanStep(run[k], schedule[k]) && run[k + 1] == Step(run[k], schedule[k])
  }

  /** The steps a state still has before it. */
  function Remaining(s: State): nat {
    if s == [] then 0 else Left(s[0]) + Remaining(s[1..])
  }

  function Left(g: Goroutine): nat {
    if g.announced && g.script != [] then 2 * |g.script| - 1 else 2 * |g.script|
  }

  lemma {:induction false} StepCostsAtLeastOne(s: State, i: nat)
    requires i < |s| && s[i].script != []
    ensures Remaining(Step(s, i)) < Remaining(s)
    decreases |s|
  {
    var s' := Step(s, i);
    if i == 0 {
      assert s'[1..] == s[1..];
    } else {
      StepCostsAtLeastOne(s[1..], i - 1);
      assert s'[1..] == Step(s[1..], i - 1);
    }
  }

  lemma {:induction false} RunIsOk(run: seq<State>, schedule: seq<nat>)
    requires Interleaving(run, schedule) && StateOk(run[0])
    ensures StateOk(run[|run| - 1]) && |schedule| + Remaining(run[|run| - 1]) <= Remaining(run[0])
    decreases |schedule|
  {
    if schedule != [] {
      var n := |schedule| - 1;
      assert run[..n + 1][0] == run[0];
      RunIsOk(run[..n + 1], schedule[..n]);
      StepKeepsStateOk(run[n], schedule[n]);
      StepCostsAtLeastOne(run[n], schedule[n]);
    }
  }

  lemma StartIsOk(scripts: seq<seq<Act>>)
    requires forall i :: 0 <= i < |scripts| ==> Ordered({}, scripts[i])
    ensures StateOk(Start(scripts))
  {
    forall i | 0 <= i < |scripts|
      ensures GoroutineOk(Start(scripts)[i])
    {
      assert Start(scripts)[i].held.Keys == {};
    }
  }

  /** However many goroutines run whatever ordered scripts, and however their steps interleave: no two
      ever hold a lock together unless both read, no state has everyone waiting, and a run that goes
      as far as it can ends with every script done. */
  lemma NoDeadlock(scripts: seq<seq<Act>>, run: seq<State>, schedule: seq<nat>)
    requires forall i :: 0 <= i < |scripts| ==> Ordered({}, scripts[i])
    requires Interleaving(run, schedule) && run[0] == Start(scripts)
    ensures var last := run[|run| - 1];
            Exclusive(last)
            && (Finished(last) || exists i :: 0 <= i < |last| && CanStep(last, i))
            && |schedule| <= Remaining(run[0])
  {
    StartIsOk(scripts);
    RunIsOk(run, schedule);
    NeverStuck(run[|run| - 1]);
  }

  /** Some interleaving leads from one state to the other. */
  ghost predicate CanReach(s: State, t: State) {
    exists run, schedule :: Interleaving(run, schedule) && run[0] == s && run[|run| - 1] == t
  }

  lemma ReachSelf(s: State)
    ensures CanReach(s, s)
  {
    assert Interleaving([s], []);
  }

  /** One step more. */
  lemma ReachStep(s: State, t: State, i: nat)
    requires CanReach(s, t) && i < |t| && CanStep(t, i)
    ensures CanReach(s, Step(t, i))
  {
    var run, schedule :| Interleaving(run, schedule) && run[0] == s && run[|run| - 1] == t;
    assert Interleaving(run + [Step(t, i)], schedule + [i]);
  }

  /** Some interleaving from here ends with everyone waiting. */
  ghost predicate CanGetStuck(start: State) {
    exists t :: CanReach(start, t) && Stuck(t)
  }

  lemma OrderedNeverGetsStuck(scripts: seq<seq<Act>>)
    requires forall i :: 0 <= i < |scripts| ==> Ordered({}, scripts[i])
    ensures !CanGetStuck(Start(scripts))
  {
    if CanGetStuck(Start(scripts)) {
      var t :| CanReach(Start(scripts), t) && Stuck(t);
      var run, schedule :| Interleaving(run, schedule) && run[0] == Start(scripts) && run[|run| - 1] == t;
      NoDeadlock(scripts, run, schedule);
    }
  }

  // ----- log messages -----

  /** One log message: the log's lock is taken for reading and given back. */
  const MESSAGE: seq<Act> := [Acquire(Log, Read), Release(Log)]

  /** The script with a log message after its first `k` acts. */
  function WithMessage(script: seq<Act>, k: nat): seq<Act>
    requires k <= |script|
  {
    script[..k] + MESSAGE + script[k..]
  }

  lemma MessageNests(held: set<Lock>)
    ensures Nests(held, MESSAGE) <==> Log !in held
    ensures Log !in held ==> HeldAfter(held, MESSAGE) == held
  {
    assert MESSAGE[1..] == [Release(Log)] && MESSAGE[1..][1..] == [];
    if Log !in held {
      assert held + {Log} - {Log} == held;
    }
  }

  /** Writing a log message keeps an ordered script ordered exactly when the log's lock is not held at
      that point: it is above all others. */
  lemma MessageKeepsOrderExactlyWhen(script: seq<Act>, k: nat)
    requires k <= |script| && Ordered({}, script)
    ensures Ordered({}, WithMessage(script, k)) <==> Log !in HeldAfter({}, script[..k])
  {
    var pre, post := script[..k], script[k..];
    OrderedIsNests({}, script);
    assert script == pre + post;
    NestsConcat({}, pre, post);
    MessageNests(HeldAfter({}, pre));
    NestsConcat({}, pre, MESSAGE);
    NestsConcat({}, pre + MESSAGE, post);
    OrderedIsNests({}, pre + MESSAGE + post);
  }

  /** The writer of the log's lock: adding a log, or rotating. */
  const LOG_WRITER: seq<Act> := [Acquire(Log, Write), Release(Log)]

  /** The locks held after part of a script, and for what. */
  function Holding(held: map<Lock, Mode>, script: seq<Act>): map<Lock, Mode>
    decreases |script|
  {
    if script == [] then held
    else match script[0]
      case Acquire(l, mode) => Holding(held[l := mode], script[1..])
      case Release(l) => Holding(held - {l}, script[1..])
  }

  lemma {:induction false} HoldingConcat(held: map<Lock, Mode>, a: seq<Act>, b: seq<Act>)
    ensures Holding(held, a + b) == Holding(Holding(held, a), b)
    decreases |a|
  {
    if a == [] {
      assert a + b == b;
    } else {
      assert (a + b)[1..] == a[1..] + b;
      match a[0]
      case Acquire(l, mode) => HoldingConcat(held[l := mode], a[1..], b);
      case Release(l) => HoldingConcat(held - {l}, a[1..], b);
    }
  }

  lemma {:induction false} HoldingKeys(held: map<Lock, Mode>, script: seq<Act>)
    ensures Holding(held, script).Keys == HeldAfter(held.Keys, script)
    decreases |script|
  {
    if script != [] {
      match script[0]
      case Acquire(l, mode) =>
        HoldingKeys(held[l := mode], script[1..]);
        assert held[l := mode].Keys == held.Keys + {l};
      case Release(l) =>
        HoldingKeys(held - {l}, script[1..]);
        assert (held - {l}).Keys == held.Keys - {l};
    }
  }

  /** No other goroutine stands in the way of taking this lock: none has announced itself, and who holds
      the lock reads, like the newcomer. */
  ghost predicate InNobodysWay(s: State, i: nat, l: Lock, mode: Mode) {
    forall j :: 0 <= j < |s| && j != i ==> !s[j].announced && (l in s[j].held ==> mode == Read && s[j].held[l] == Read)
  }

  ghost predicate RunsFreely(s: State, i: nat, script: seq<Act>) {
    forall a :: a in script && a.Acquire? ==> InNobodysWay(s, i, a.lock, a.mode)
  }

  lemma RestRunsFreely(s: State, t: State, i: nat, pre: seq<Act>)
    requires RunsFreely(s, i, pre) && pre != [] && i < |s| && |t| == |s|
    requires forall j :: 0 <= j < |s| && j != i ==> t[j] == s[j]
    ensures RunsFreely(t, i, pre[1..])
  {
    forall a | a in pre[1..] && a.Acquire?
      ensures InNobodysWay(t, i, a.lock, a.mode)
    {
      assert a in pre;
      assert InNobodysWay(s, i, a.lock, a.mode);
    }
  }

  /** A goroutine in nobody's way runs on alone, as far as one likes. */
  lemma {:induction false} RunsAlone(from: State, s: State, i: nat, pre: seq<Act>, rest: seq<Act>,
                                     held: map<Lock, Mode>) returns (t: State)
    requires CanReach(from, s) && i < |s| && s[i] == Goroutine(pre + rest, held, false)
    requires Nests(held.Keys, pre) && RunsFreely(s, i, pre)
    ensures CanReach(from, t) && t == s[i := Goroutine(rest, Holding(held, pre), false)]
    decreases |pre|
  {
    if pre == [] {
      assert pre + rest == rest;
      t := s;
    } else {
      var act, more := pre[0], pre[1..];
      assert (pre + rest)[1..] == more + rest;
      assert act in pre;
      var s' := OneActAlone(from, s, i, act, more + rest, held);
      RestRunsFreely(s, s', i, pre);
      assert pre == [act] + more;
      NestsConcat(held.Keys, [act], more);
      HoldingConcat(held, [act], more);
      HoldingKeys(held, [act]);
      t := RunsAlone(from, s', i, more, rest, Holding(held, [act]));
    }
  }

  lemma OneActAlone(from: State, s: State, i: nat, act: Act, rest: seq<Act>, held: map<Lock, Mode>)
    returns (t: State)
    requires CanReach(from, s) && i < |s| && s[i] == Goroutine([act] + rest, held, false)
    requires Nests(held.Keys, [act]) && (act.Acquire? ==> InNobodysWay(s, i, act.lock, act.mode))
    ensures CanReach(from, t) && t == s[i := Goroutine(rest, Holding(held, [act]), false)]
  {
    assert ([act] + rest)[1..] == rest && [act][1..] == [];
    ReachStep(from, s, i);
    t := Step(s, i);
    if act.Acquire? && act.mode == Write {
      assert CanStep(t, i);
      ReachStep(from, t, i);
      t := Step(t, i);
    }
  }

  lemma ReaderAndWriterStuck(script: seq<Act>, held: map<Lock, Mode>)
    requires script != [] && script[0] == Acquire(Log, Read) && Log in held
    ensures var s := [Goroutine(script, held, false), Fresh(LOG_WRITER)];
            if held[Log] == Write then Stuck(s) else CanStep(s, 1) && Stuck(Step(s, 1))
  {
    var s := [Goroutine(script, held, false), Fresh(LOG_WRITER)];
    assert s[1].script[0] == Acquire(Log, Write);
    if held[Log] == Write {
      assert HoldsFor(s[0], Log, Write);
      assert !CanStep(s, 0) && !CanStep(s, 1);
    } else {
      var t := Step(s, 1);
      assert HoldsFor(t[0], Log, Read) && Announced(t[1], Log);
      assert !CanStep(t, 0) && !CanStep(t, 1);
    }
  }

  lemma HeldMessageGetsStuck(script: seq<Act>, k: nat)
    requires k <= |script| && Nests({}, script[..k]) && Log in HeldAfter({}, script[..k])
    ensures CanGetStuck([Fresh(WithMessage(script, k)), Fresh(LOG_WRITER)])
  {
    var pre, rest := script[..k], MESSAGE + script[k..];
    var start := [Fresh(WithMessage(script, k)), Fresh(LOG_WRITER)];
    assert pre + rest == WithMessage(script, k);
    ReachSelf(start);
    var none: map<Lock, Mode> := map[];
    assert none.Keys == {};
    var t := RunsAlone(start, start, 0, pre, rest, none);
    var held := t[0].held;
    HoldingKeys(none, pre);
    assert t == [Goroutine(rest, held, false), Fresh(LOG_WRITER)];
    ReaderAndWriterStuck(rest, held);
    if held[Log] == Read {
      ReachStep(start, t, 1);
    }
  }

  lemma PrefixNests(script: seq<Act>, k: nat)
    requires k <= |script| && Ordered({}, script)
    ensures Nests({}, script[..k])
  {
    OrderedIsNests({}, script);
    assert script == script[..k] + script[k..];
    NestsConcat({}, script[..k], script[k..]);
  }

  /** For every ordered script and every point in it: with a log message written there, the script and
      one writer of the log can end up waiting for each other exactly when the log's lock is held at
      that point. */
  lemma MessageCanGetStuckExactlyWhen(script: seq<Act>, k: nat)
    requires k <= |script| && Ordered({}, script)
    ensures CanGetStuck(Start([WithMessage(script, k), LOG_WRITER])) <==> Log in HeldAfter({}, script[..k])
  {
    var scripts := [WithMessage(script, k), LOG_WRITER];
    if Log !in HeldAfter({}, script[..k]) {
      MessageKeepsOrderExactlyWhen(script, k);
      WriterIsOrdered();
      OrderedNeverGetsStuck(scripts);
    } else {
      PrefixNests(script, k);
      HeldMessageGetsStuck(script, k);
      assert Start(scripts) == [Fresh(scripts[0]), Fresh(scripts[1])];
    }
  }

  lemma WriterIsOrdered()
    ensures Ordered({}, LOG_WRITER)
  {
    assert LOG_WRITER[1..] == [Release(Log)] && LOG_WRITER[1..][1..] == [];
    assert {} + {Log} - {Log} == {};
  }

  // ----- any number of messages -----

  function Messages(n: nat): seq<Act> {
    if n == 0 then [] else MESSAGE + Messages(n - 1)
  }

  /** The script with `marks[i]` log messages before its act `i`, and `marks[|script|]` at its end. */
  function Chatty(script: seq<Act>, marks: seq<nat>): seq<Act>
    requires |marks| == |script| + 1
    decreases |script|
  {
    if script == [] then Messages(marks[0])
    else Messages(marks[0]) + ([script[0]] + Chatty(script[1..], marks[1..]))
  }

  /** No message is written while the log's lock is held. */
  ghost predicate QuietUnderLog(script: seq<Act>, marks: seq<nat>)
    requires |marks| == |script| + 1
  {
    forall k :: 0 <= k <= |script| && marks[k] > 0 ==> Log !in HeldAfter({}, script[..k])
  }

  ghost predicate QuietFrom(held: set<Lock>, script: seq<Act>, marks: seq<nat>)
    requires |marks| == |script| + 1
    decreases |script|
  {
    (marks[0] > 0 ==> Log !in held)
    && (script != [] ==> QuietFrom(HeldAfter(held, [script[0]]), script[1..], marks[1..]))
  }

  lemma {:induction false} MessagesNest(held: set<Lock>, n: nat)
    ensures Nests(held, Messages(n)) <==> (n > 0 ==> Log !in held)
    ensures (n > 0 ==> Log !in held) ==> HeldAfter(held, Messages(n)) == held
  {
    if n > 0 {
      MessageNests(held);
      MessagesNest(held, n - 1);
      NestsConcat(held, MESSAGE, Messages(n - 1));
    }
  }

  lemma {:induction false} ChattyNests(held: set<Lock>, script: seq<Act>, marks: seq<nat>)
    requires |marks| == |script| + 1 && Nests(held, script)
    ensures Nests(held, Chatty(script, marks)) <==> QuietFrom(held, script, marks)
    ensures QuietFrom(held, script, marks) ==> HeldAfter(held, Chatty(script, marks)) == HeldAfter(held, script)
    decreases |script|
  {
    MessagesNest(held, marks[0]);
    if script != [] {
      var act, rest := [script[0]], script[1..];
      assert script == act + rest;
      NestsConcat(held, act, rest);
      var next := HeldAfter(held, act);
      ChattyNests(next, rest, marks[1..]);
      NestsConcat(held, act, Chatty(rest, marks[1..]));
      NestsConcat(held, Messages(marks[0]), act + Chatty(rest, marks[1..]));
    }
  }

  lemma {:induction false} QuietFromPrefix(pre: seq<Act>, script: seq<Act>, marks: seq<nat>)
    requires |marks| == |script| + 1
    ensures QuietFrom(HeldAfter({}, pre), script, marks) <==>
            forall k :: 0 <= k <= |script| && marks[k] > 0 ==> Log !in HeldAfter({}, pre + script[..k])
    decreases |script|
  {
    assert pre + script[..0] == pre;
    if script != [] {
      var act, rest := [script[0]], script[1..];
      NestsConcat({}, pre, act);
      QuietFromPrefix(pre + act, rest, marks[1..]);
      forall k | 0 <= k <= |rest|
        ensures pre + act + rest[..k] == pre + script[..k + 1] && marks[1..][k] == marks[k + 1]
      {
      }
      assert forall k :: 1 <= k <= |script| ==> pre + script[..k] == pre + act + rest[..k - 1];
    }
  }

  /** With any number of messages anywhere, an ordered script stays ordered exactly when none of them is
      written while the log's lock is held. */
  lemma ChattyIsOrderedExactlyWhen(script: seq<Act>, marks: seq<nat>)
    requires |marks| == |script| + 1 && Ordered({}, script)
    ensures Ordered({}, Chatty(script, marks)) <==> QuietUnderLog(script, marks)
  {
    OrderedIsNests({}, script);
    ChattyNests({}, script, marks);
    OrderedIsNests({}, Chatty(script, marks));
    QuietFromPrefix([], script, marks);
    assert forall k :: 0 <= k <= |script| ==> [] + script[..k] == script[..k];
  }
}
