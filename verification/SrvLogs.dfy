/** Named loggers that share their services and their buffered logs (log.go), and the rotation that
    replaces the logs in place. */
module SrvLogs {
  import opened Options

  /** A buffered file log; only its identity and its buffer matter. */
  class BufferedLog {
    var bufferCap: nat

    constructor (cap: nat)
      ensures bufferCap == cap
    {
      bufferCap := cap;
    }
  }

  /** What a slot holds: a buffered log, or a notifier of another kind. */
  datatype LogNotify = Buffered(log: BufferedLog) | Other(id: int)

  /** Every log rotated so far and what replaces it. */
  type Memo = map<BufferedLog, BufferedLog>

  /** The slots of named services. */
  type SlotMap = map<string, seq<LogNotify>>

  class LogService {
    var enabled: bool
    var notifiers: seq<LogNotify>

    constructor ()
      ensures enabled && notifiers == []
    {
      enabled, notifiers := true, [];
    }
  }

  ghost function LogsOf(ns: seq<LogNotify>): set<BufferedLog> {
    set i | 0 <= i < |ns| && ns[i].Buffered? :: ns[i].log
  }

  lemma LogsOfPrefix(ns: seq<LogNotify>, i: nat)
    requires i < |ns|
    ensures LogsOf(ns[..i + 1]) == LogsOf(ns[..i]) + if ns[i].Buffered? then {ns[i].log} else {}
  {
  }

  // ----- what a rotation does to the slots -----

  function ReplaceSlot(n: LogNotify, memo: Memo): LogNotify {
    if n.Buffered? && n.log in memo then Buffered(memo[n.log]) else n
  }

  function Replace(ns: seq<LogNotify>, memo: Memo): seq<LogNotify> {
    seq(|ns|, i requires 0 <= i < |ns| => ReplaceSlot(ns[i], memo))
  }

  ghost predicate Injective(memo: Memo) {
    forall a, b :: a in memo && b in memo && memo[a] == memo[b] ==> a == b
  }

  /** Replacing every log by its own new one keeps the sharing: any two slots, of any services, hold
      the same buffered log afterwards exactly when they did before, and slots of another kind stay
      what they were. */
  lemma ReplaceKeepsSharing(ns: seq<LogNotify>, ms: seq<LogNotify>, memo: Memo, i: nat, j: nat)
    requires Injective(memo) && LogsOf(ns) <= memo.Keys && LogsOf(ms) <= memo.Keys
    requires i < |ns| && j < |ms|
    ensures Replace(ns, memo)[i] == Replace(ms, memo)[j] <==> ns[i] == ms[j]
    ensures ns[i].Other? ==> Replace(ns, memo)[i] == ns[i]
    ensures ns[i].Buffered? ==> ns[i].log in memo && Replace(ns, memo)[i] == Buffered(memo[ns[i].log])
  {
  }

  /** `later` has all that `memo` has. */
  ghost predicate Extends(memo: Memo, later: Memo) {
    forall a :: a in memo ==> a in later && later[a] == memo[a]
  }

  /** Logs added to the memo leave alone the slots whose logs were in it already. */
  lemma ReplaceIsStable(ns: seq<LogNotify>, memo: Memo, later: Memo)
    requires LogsOf(ns) <= memo.Keys && Extends(memo, later)
    ensures Replace(ns, later) == Replace(ns, memo)
  {
  }

  // ----- the buffers of a set of logs -----

  ghost function SumCaps(s: set<BufferedLog>): nat
    reads s
  {
    if s == {} then 0 else var l :| l in s; l.bufferCap + SumCaps(s - {l})
  }

  lemma {:induction false} SumCapsRemove(s: set<BufferedLog>, l: BufferedLog)
    requires l in s
    ensures SumCaps(s) == l.bufferCap + SumCaps(s - {l})
    decreases |s|
  {
    var k :| k in s && SumCaps(s) == k.bufferCap + SumCaps(s - {k});
    if k != l {
      SumCapsRemove(s - {k}, l);
      SumCapsRemove(s - {l}, k);
      assert s - {k} - {l} == s - {l} - {k};
    }
  }

  ghost function ListCaps(ls: seq<BufferedLog>): nat
    reads ls
  {
    if ls == [] then 0 else ls[|ls| - 1].bufferCap + ListCaps(ls[..|ls| - 1])
  }

  /** That is the sum over any listing of the set, in whatever order, in which each log comes once. */
  lemma {:induction false} SumCapsOfListing(ls: seq<BufferedLog>)
    requires forall i, j :: 0 <= i < j < |ls| ==> ls[i] != ls[j]
    ensures SumCaps(set l | l in ls) == ListCaps(ls)
    decreases |ls|
  {
    if ls == [] {
      assert (set l | l in ls) == {};
    } else {
      var init, l := ls[..|ls| - 1], ls[|ls| - 1];
      var all := set k | k in ls;
      SumCapsOfListing(init);
      assert ls == init + [l];
      assert all - {l} == set k | k in init;
      SumCapsRemove(all, l);
    }
  }

  /** `flog.Rotate`: retires the log and hands out a new one, unless the result is of an unexpected
      type. `calls` counts how often each log was handed to it. */
  method FlogRotate(l: BufferedLog, fails: bool, ghost calls: multiset<BufferedLog>)
    returns (r: Option<BufferedLog>, ghost counted: multiset<BufferedLog>)
    ensures counted == calls + multiset{l}
    ensures r.Some? <==> !fails
    ensures r.Some? ==> fresh(r.value)
  {
    counted := calls + multiset{l};
    if fails {
      return None, counted;
    }
    var n := new BufferedLog(l.bufferCap);
    return Some(n), counted;
  }

  class SrvLog {
    var subs: map<string, LogService>
    var fields: map<string, int>

    /** Within one logger no two names share a service. */
    ghost predicate Valid()
      reads this
    {
      forall a, b :: a in subs && b in subs && subs[a] == subs[b] ==> a == b
    }

    /** The distinct buffered logs in the slots of the named services. */
    ghost function LogsAt(names: set<string>): set<BufferedLog>
      requires names <= subs.Keys
      reads this, subs.Values
    {
      set n, l | n in names && l in LogsOf(subs[n].notifiers) :: l
    }

    /** The slots of every named service. */
    ghost function Slots(): (r: SlotMap)
      reads this, subs.Values
    {
      map n | n in subs :: subs[n].notifiers
    }

    constructor ()
      ensures Valid() && subs == map[] && fields == map[]
    {
      subs, fields := map[], map[];
    }

    /** `AddLog`: appends to the named service, which loggers derived from this one share; a name
        without a service gets a new one, which they do not. */
    method AddLog(name: string, newLog: LogNotify)
      requires Valid()
      modifies this, subs.Values
      ensures Valid() && fields == old(fields)
      ensures subs.Keys == old(subs.Keys) + {name}
      ensures forall n :: n in old(subs) ==> subs[n] == old(subs[n])
      ensures name !in old(subs) ==> fresh(subs[name]) && subs[name].enabled && subs[name].notifiers == [newLog]
      ensures name in old(subs) ==> subs[name].notifiers == old(subs[name].notifiers) + [newLog]
      ensures forall n :: n in old(subs) && n != name ==> subs[n].notifiers == old(subs[n].notifiers)
      ensures forall n :: n in old(subs) ==> subs[n].enabled == old(subs[n].enabled)
    {
      if name !in subs {
        var logger := new LogService();
        subs := subs[name := logger];
      }
      subs[name].notifiers := subs[name].notifiers + [newLog];
    }

    /** The loop that `WithFields` runs three times: put every entry of one map into another. */
    static method CopyInto<V>(target: map<string, V>, source: map<string, V>) returns (r: map<string, V>)
      ensures r == target + source
    {
      r := target;
      var rest := source.Keys;
      while rest != {}
        invariant rest <= source.Keys
        invariant r == target + (source - rest)
        decreases rest
      {
        var key :| key in rest;
        r := r[key := source[key]];
        rest := rest - {key};
      }
      assert source - rest == source;
    }

    /** `WithFields`: a logger with the same services, not copies of them, and more fields. */
    method WithFields(more: map<string, int>) returns (derived: SrvLog)
      requires Valid()
      ensures fresh(derived) && derived.Valid()
      ensures derived.subs == subs
      ensures derived.fields == fields + more
    {
      var newSubs := CopyInto(map[], subs);
      var newFields := CopyInto(map[], fields);
      newFields := CopyInto(newFields, more);
      derived := new SrvLog();
      derived.subs, derived.fields := newSubs, newFields;
      assert newSubs == subs && newFields == fields + more;
    }

    lemma LogsAtAll()
      ensures LogsAt(subs.Keys) == AllLogs(Slots())
    {
      var at, all := LogsAt(subs.Keys), AllLogs(Slots());
      forall l
        ensures l in at <==> l in all
      {
        if n :| n in subs && l in LogsOf(subs[n].notifiers) {
          assert l in LogsOf(Slots()[n]);
        }
      }
    }

    lemma LogsAtGrows(names: set<string>, name: string)
      requires names <= subs.Keys && name in subs
      ensures LogsAt(names + {name}) == LogsAt(names) + LogsOf(subs[name].notifiers)
    {
    }

    /** `FileLogBufferCap`: the buffers of the distinct buffered logs, each counted once however many
        slots share it and in whatever order the services are visited. */
    method FileLogBufferCap() returns (totalCap: nat)
      ensures totalCap == SumCaps(AllLogs(Slots()))
    {
      totalCap := 0;
      var logBuffers: set<BufferedLog> := {};
      var rest := subs.Keys;
      while rest != {}
        invariant rest <= subs.Keys
        invariant logBuffers == LogsAt(subs.Keys - rest)
        invariant totalCap == SumCaps(logBuffers)
        decreases rest
      {
        var k :| k in rest;
        LogsAtGrows(subs.Keys - rest, k);
        assert subs.Keys - (rest - {k}) == (subs.Keys - rest) + {k};
        logBuffers, totalCap := AddCaps(subs[k].notifiers, logBuffers, totalCap);
        rest := rest - {k};
      }
      assert subs.Keys - rest == subs.Keys;
      LogsAtAll();
    }

    /** The inner loop: one service's slots. */
    static method AddCaps(ns: seq<LogNotify>, before: set<BufferedLog>, capBefore: nat)
      returns (logBuffers: set<BufferedLog>, totalCap: nat)
      requires capBefore == SumCaps(before)
      ensures logBuffers == before + LogsOf(ns) && totalCap == SumCaps(logBuffers)
    {
      logBuffers, totalCap := before, capBefore;
      for i := 0 to |ns|
        invariant logBuffers == before + LogsOf(ns[..i])
        invariant totalCap == SumCaps(logBuffers)
      {
        LogsOfPrefix(ns, i);
        if ns[i].Buffered? && ns[i].log !in logBuffers {
          var l := ns[i].log;
          SumCapsRemove(logBuffers + {l}, l);
          assert logBuffers + {l} - {l} == logBuffers;
          logBuffers := logBuffers + {l};
          totalCap := totalCap + l.bufferCap;
        }
      }
      assert ns[..|ns|] == ns;
    }

    /** The innermost step of `Rotate`: one slot. */
    static method RotateSlot(svc: LogService, i: nat, before: Memo,
                             failing: set<BufferedLog>, ghost calls: multiset<BufferedLog>)
      returns (ok: bool, rotated: Memo, ghost counted: multiset<BufferedLog>)
      requires i < |svc.notifiers| && Injective(before)
      modifies svc`notifiers
      ensures Injective(rotated) && Extends(before, rotated)
      ensures forall l :: l in rotated && l !in before ==> fresh(rotated[l])
      ensures var n := old(svc.notifiers[i]);
              var isNew := n.Buffered? && n.log !in before;
              (ok <==> !(isNew && n.log in failing))
              && rotated.Keys == (if isNew && ok then before.Keys + {n.log} else before.Keys)
              && counted == (if isNew then calls + multiset{n.log} else calls)
              && svc.notifiers == if ok then old(svc.notifiers)[i := ReplaceSlot(n, rotated)] else old(svc.notifiers)
      ensures ok && old(svc.notifiers[i]).Buffered? ==> old(svc.notifiers[i]).log in rotated
    {
      ok, rotated, counted := true, before, calls;
      if svc.notifiers[i].Buffered? {
        var oldLog := svc.notifiers[i].log;
        if oldLog in rotated {
          svc.notifiers := svc.notifiers[i := Buffered(rotated[oldLog])];
        } else {
          var tmp;
          tmp, counted := FlogRotate(oldLog, oldLog in failing, calls);
          if tmp == None {
            return false, rotated, counted;
          }
          svc.notifiers := svc.notifiers[i := Buffered(tmp.value)];
          rotated := rotated[oldLog := tmp.value];
        }
      }
    }

    /** The inner loop of `Rotate`: one service's slots, rewritten in place. */
    static method RotateService(svc: LogService, before: Memo, failing: set<BufferedLog>,
                                ghost calls: multiset<BufferedLog>)
      returns (ok: bool, rotated: Memo, ghost counted: multiset<BufferedLog>)
      requires Injective(before) && before.Keys !! failing && calls == multiset(before.Keys)
      modifies svc`notifiers
      ensures Injective(rotated) && Extends(before, rotated)
      ensures forall l :: l in rotated && l !in before ==> fresh(rotated[l])
      ensures rotated.Keys !! failing && rotated.Keys <= before.Keys + LogsOf(old(svc.notifiers))
      ensures CountedOnce(ok, rotated.Keys, failing * LogsOf(old(svc.notifiers)), counted)
      ensures ok ==> svc.notifiers == Replace(old(svc.notifiers), rotated) && LogsOf(old(svc.notifiers)) <= rotated.Keys
      ensures HalfReplaced(svc.notifiers, old(svc.notifiers), rotated)
    {
      ok, rotated, counted := true, before, calls;
      ghost var ns := svc.notifiers;
      for i := 0 to |svc.notifiers|
        invariant ok && ReplacedUpTo(svc.notifiers, ns, rotated, i)
        invariant rotated.Keys <= before.Keys + LogsOf(ns) && rotated.Keys !! failing
        invariant CoveredUpTo(ns, rotated, i)
        invariant counted == multiset(rotated.Keys)
        invariant Injective(rotated) && Extends(before, rotated)
        invariant forall l :: l in rotated && l !in before ==> fresh(rotated[l])
      {
        LogIsAmong(ns, i);
        ghost var memo, now := rotated, svc.notifiers;
        ok, rotated, counted := RotateSlot(svc, i, rotated, failing, counted);
        ReplacedUpToStep(now, ns, memo, rotated, i);
        if ns[i].Buffered? {
          CountOneMore(memo.Keys, ns[i].log);
        }
        if !ok {
          assert rotated.Keys == memo.Keys;
          return;
        }
      }
      AllReplaced(svc.notifiers, ns, rotated);
    }

    /** The body of the outer loop of `Rotate`: one name. */
    method RotateName(k: string, before: Memo, failing: set<BufferedLog>, ghost calls: multiset<BufferedLog>)
      returns (ok: bool, memo: Memo, ghost counted: multiset<BufferedLog>)
      requires Valid() && k in subs
      requires Injective(before) && before.Keys !! failing && calls == multiset(before.Keys)
      modifies subs.Values`notifiers
      ensures Injective(memo) && Extends(before, memo)
      ensures forall l :: l in memo && l !in before ==> fresh(memo[l])
      ensures memo.Keys !! failing && memo.Keys <= before.Keys + LogsOf(old(Slots())[k])
      ensures CountedOnce(ok, memo.Keys, failing * LogsOf(old(Slots())[k]), counted)
      ensures k in Slots() && Slots() == old(Slots())[k := Slots()[k]]
      ensures ok ==> Slots()[k] == Replace(old(Slots())[k], memo) && LogsOf(old(Slots())[k]) <= memo.Keys
      ensures HalfReplaced(Slots()[k], old(Slots())[k], memo)
    {
      ok, memo, counted := RotateService(subs[k], before, failing, calls);
    }

    /** What holds after each name: the logs rotated are some of the loggers' own, none of them a
        failing one, and each was rotated once. */
    ghost predicate Progress(was: SlotMap, rest: set<string>, memo: Memo, failing: set<BufferedLog>,
                             counted: multiset<BufferedLog>)
      reads this, subs.Values
    {
      InProgress(Slots(), was, rest, memo) && AllHalfReplaced(Slots(), was, memo) && Injective(memo)
      && memo.Keys <= AllLogs(was) && memo.Keys !! failing && counted == multiset(memo.Keys)
    }

    /** One pass of the outer loop of `Rotate`. */
    method RotateNext(k: string, ghost was: SlotMap, ghost rest: set<string>, before: Memo,
                      failing: set<BufferedLog>, ghost calls: multiset<BufferedLog>)
      returns (ok: bool, memo: Memo, ghost counted: multiset<BufferedLog>)
      requires Valid() && Progress(was, rest, before, failing, calls) && k in rest
      modifies subs.Values`notifiers
      ensures Extends(before, memo) && forall l :: l in memo && l !in before ==> fresh(memo[l])
      ensures ok ==> Progress(was, rest - {k}, memo, failing, counted)
      ensures !ok ==> Injective(memo) && memo.Keys <= AllLogs(was) && failing * AllLogs(was) != {}
                      && CountedOnce(false, memo.Keys, failing * AllLogs(was), counted)
      ensures AllHalfReplaced(Slots(), was, memo)
    {
      LogsAmongAll(was, k);
      ghost var now := Slots();
      ok, memo, counted := RotateName(k, before, failing, calls);
      OneNameMore(now, was, rest, before, memo, k, Slots()[k]);
      if !ok {
        FailureIsAmong(was, k, failing, memo.Keys, counted);
      }
    }

    lemma NothingVisited(failing: set<BufferedLog>)
      ensures Progress(Slots(), subs.Keys, map[], failing, multiset{})
    {
    }

    lemma AllRotated(was: SlotMap, memo: Memo, failing: set<BufferedLog>, counted: multiset<BufferedLog>)
      requires Progress(was, {}, memo, failing, counted)
      ensures AllLogs(was) !! failing && Injective(memo) && memo.Keys == AllLogs(was)
      ensures AllReplacedIn(Slots(), was, memo) && AllHalfReplaced(Slots(), was, memo)
      ensures CountedOnce(true, memo.Keys, failing * AllLogs(was), counted)
    {
      AllVisited(Slots(), was, memo);
    }

    /** `Rotate`: every buffered log of this logger is rotated once, and every slot that held it holds
        its one replacement. `failing` are the logs whose rotation yields an unexpected type; with
        one of them among the slots the call stops there with an error. */
    method Rotate(failing: set<BufferedLog>)
      returns (ok: bool, ghost rotated: Memo, ghost counted: multiset<BufferedLog>)
      requires Valid()
      modifies subs.Values`notifiers
      ensures ok <==> AllLogs(old(Slots())) !! failing
      ensures Injective(rotated) && rotated.Keys <= AllLogs(old(Slots()))
      ensures forall l :: l in rotated ==> fresh(rotated[l])
      ensures CountedOnce(ok, rotated.Keys, failing * AllLogs(old(Slots())), counted)
      ensures ok ==> rotated.Keys == AllLogs(old(Slots())) && AllReplacedIn(Slots(), old(Slots()), rotated)
      ensures AllHalfReplaced(Slots(), old(Slots()), rotated)
    {
      var memo: Memo := map[];
      ok, counted := true, multiset{};
      var rest := subs.Keys;
      ghost var was := Slots();
      NothingVisited(failing);
      while rest != {}
        invariant ok && Progress(was, rest, memo, failing, counted)
        invariant forall l :: l in memo ==> fresh(memo[l])
        decreases rest
      {
        var k :| k in rest;
        ok, memo, counted := RotateNext(k, was, rest, memo, failing, counted);
        if !ok {
          return false, memo, counted;
        }
        rest := rest - {k};
      }
      AllRotated(was, memo, failing, counted);
      rotated := memo;
    }
  }

  /** A rotation as a second logger sees it, typically one that `WithFields` derived: every service it
      shares with the rotated logger shows the very same replacements, and a service of its own is
      left alone, so that a slot there that holds a rotated log keeps the retired one. */
  method RotateSeenFrom(base: SrvLog, other: SrvLog, failing: set<BufferedLog>)
    returns (ok: bool, ghost rotated: Memo)
    requires base.Valid()
    modifies base.subs.Values`notifiers
    ensures ok <==> AllLogs(old(base.Slots())) !! failing
    ensures ok ==> Injective(rotated) && rotated.Keys == AllLogs(old(base.Slots()))
    ensures ok ==> forall n :: n in other.subs ==>
      other.Slots()[n] == if other.subs[n] in base.subs.Values then Replace(old(other.Slots())[n], rotated)
                          else old(other.Slots())[n]
  {
    ghost var counted;
    ok, rotated, counted := base.Rotate(failing);
    if ok {
      forall n | n in other.subs && other.subs[n] in base.subs.Values
        ensures other.Slots()[n] == Replace(old(other.Slots())[n], rotated)
      {
        var m :| m in base.subs && base.subs[m] == other.subs[n];
        assert base.Slots()[m] == Replace(old(base.Slots())[m], rotated);
      }
    }
  }

  ghost function AllLogs(slots: SlotMap): set<BufferedLog> {
    set n, l | n in slots && l in LogsOf(slots[n]) :: l
  }

  /** Half way through a rotation: the names in `rest` are still to be visited. */
  ghost predicate InProgress(now: SlotMap, was: SlotMap, rest: set<string>, memo: Memo) {
    now.Keys == was.Keys && rest <= was.Keys
    && forall n :: n in was ==>
         if n in rest then now[n] == was[n] else LogsOf(was[n]) <= memo.Keys && now[n] == Replace(was[n], memo)
  }

  lemma HalfStays(now: seq<LogNotify>, was: seq<LogNotify>, memo: Memo, later: Memo)
    requires Extends(memo, later) && (now == was || (now == Replace(was, memo) && LogsOf(was) <= memo.Keys))
    ensures HalfReplaced(now, was, later)
  {
    if LogsOf(was) <= memo.Keys {
      ReplaceIsStable(was, memo, later);
    }
  }

  /** One name more: what the earlier memo replaced is what the later one replaces it by. */
  lemma OneNameMore(now: SlotMap, was: SlotMap, rest: set<string>, memo: Memo, later: Memo, k: string,
                    slots: seq<LogNotify>)
    requires InProgress(now, was, rest, memo) && k in rest && Extends(memo, later)
    requires HalfReplaced(slots, was[k], later)
    ensures AllHalfReplaced(now[k := slots], was, later)
    ensures slots == Replace(was[k], later) && LogsOf(was[k]) <= later.Keys ==>
              InProgress(now[k := slots], was, rest - {k}, later)
  {
    forall n | n in was && n !in rest
      ensures LogsOf(was[n]) <= later.Keys && now[n] == Replace(was[n], later)
    {
      ReplaceIsStable(was[n], memo, later);
    }
    forall n | n in was && n != k
      ensures HalfReplaced(now[n], was[n], later)
    {
      HalfStays(now[n], was[n], memo, later);
    }
  }

  lemma AllVisited(now: SlotMap, was: SlotMap, memo: Memo)
    requires InProgress(now, was, {}, memo)
    ensures AllLogs(was) <= memo.Keys && AllReplacedIn(now, was, memo)
  {
  }

  ghost predicate AllReplacedIn(now: SlotMap, was: SlotMap, memo: Memo) {
    now.Keys == was.Keys && forall n :: n in was ==> now[n] == Replace(was[n], memo)
  }

  ghost predicate AllHalfReplaced(now: SlotMap, was: SlotMap, memo: Memo) {
    now.Keys == was.Keys && forall n :: n in was ==> HalfReplaced(now[n], was[n], memo)
  }

  lemma LogsAmongAll(slots: SlotMap, k: string)
    requires k in slots
    ensures LogsOf(slots[k]) <= AllLogs(slots)
  {
  }

  lemma FailureIsAmong(slots: SlotMap, k: string, failing: set<BufferedLog>,
                       done: set<BufferedLog>, counted: multiset<BufferedLog>)
    requires k in slots && CountedOnce(false, done, failing * LogsOf(slots[k]), counted)
    ensures CountedOnce(false, done, failing * AllLogs(slots), counted)
    ensures failing * AllLogs(slots) != {}
  {
  }

  /** Each slot is as it was or holds the replacement of its log. */
  ghost predicate HalfReplaced(now: seq<LogNotify>, was: seq<LogNotify>, memo: Memo) {
    |now| == |was| && forall i :: 0 <= i < |was| ==> now[i] == was[i] || now[i] == ReplaceSlot(was[i], memo)
  }

  /** How often each log was rotated: each of `done` once; after a failure one failing log as well. */
  ghost predicate CountedOnce(ok: bool, done: set<BufferedLog>, failing: set<BufferedLog>,
                              counted: multiset<BufferedLog>)
  {
    if ok then counted == multiset(done) else exists l :: l in failing && counted == multiset(done) + multiset{l}
  }

  lemma LogIsAmong(ns: seq<LogNotify>, i: nat)
    requires i < |ns|
    ensures ns[i].Buffered? ==> ns[i].log in LogsOf(ns)
  {
  }

  lemma CountOneMore(s: set<BufferedLog>, l: BufferedLog)
    ensures l !in s ==> multiset(s + {l}) == multiset(s) + multiset{l}
  {
  }

  /** The memo knows the logs of the first `i` slots. */
  ghost predicate CoveredUpTo(was: seq<LogNotify>, memo: Memo, i: nat) {
    forall j :: 0 <= j < |was| && j < i && was[j].Buffered? ==> was[j].log in memo
  }

  lemma AllReplaced(now: seq<LogNotify>, was: seq<LogNotify>, memo: Memo)
    requires ReplacedUpTo(now, was, memo, |was|) && CoveredUpTo(was, memo, |was|)
    ensures now == Replace(was, memo) && LogsOf(was) <= memo.Keys
  {
  }

  /** The first `i` slots are replaced, the others as they were. */
  ghost predicate ReplacedUpTo(now: seq<LogNotify>, was: seq<LogNotify>, memo: Memo, i: nat) {
    |now| == |was| && forall j :: 0 <= j < |was| ==> now[j] == if j < i then ReplaceSlot(was[j], memo) else was[j]
  }

  lemma ReplacedUpToStep(now: seq<LogNotify>, was: seq<LogNotify>, memo: Memo,
                         later: Memo, i: nat)
    requires i < |was| && ReplacedUpTo(now, was, memo, i)
    requires Extends(memo, later) && CoveredUpTo(was, memo, i)
    ensures ReplacedUpTo(now[i := ReplaceSlot(was[i], later)], was, later, i + 1)
    ensures HalfReplaced(now, was, later)
  {
  }
}
