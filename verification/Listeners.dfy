/** Listening addresses, the listeners open on them, and how one side of the server is brought from
    the addresses it had to the addresses it wants (net.go). */
module Listeners {
  import opened Options
  import opened Cidr

  datatype Addr = Addr(ip: Ip, port: int)

  // ----- which addresses belong to which side -----

  /** The networks that `netInit` registers. */
  const PRIVATE_NETS: seq<Subnet> := [
    SubnetOf(Ip(V4, 0x0A00_0000), 8),
    SubnetOf(Ip(V4, 0xAC10_0000), 16),
    SubnetOf(Ip(V4, 0xC0A8_0000), 16),
    SubnetOf(Ip(V4, 0x7F00_0000), 8)
  ]

  predicate InPrivateNets(ip: Ip) {
    exists i :: 0 <= i < |PRIVATE_NETS| && Contains(PRIVATE_NETS[i], ip)
  }

  /** `isPrivateNetwork`: an ignored address is never private. */
  predicate IsPrivateNetwork(ignoreAddrs: seq<Ip>, ip: Ip) {
    ip !in ignoreAddrs && InPrivateNets(ip)
  }

  lemma Powers()
    ensures Pow2(8) == 0x100 && Pow2(16) == 0x1_0000 && Pow2(24) == 0x100_0000
  {
  }

  /** 10.x.x.x, 172.16.x.x, 192.168.x.x and 127.x.x.x. */
  predicate InPrivateRanges(ip: Ip) {
    ip.family == V4 && (0x0A00_0000 <= ip.value < 0x0B00_0000 || 0xAC10_0000 <= ip.value < 0xAC11_0000
                        || 0xC0A8_0000 <= ip.value < 0xC0A9_0000 || 0x7F00_0000 <= ip.value < 0x8000_0000)
  }

  /** Which addresses those networks hold, as ranges. The second is 172.16.0.0 to 172.16.255.255 only,
      where section 3 of RFC 1918 reserves everything up to 172.31.255.255. */
  lemma PrivateRanges(ip: Ip)
    ensures InPrivateNets(ip) <==> InPrivateRanges(ip)
  {
    Powers();
    assert BlockSize(V4, 8) == 0x100_0000 && BlockSize(V4, 16) == 0x1_0000;
    var n := PRIVATE_NETS;
    assert n[0] == Subnet(V4, 0x0A00_0000, 8) && n[1] == Subnet(V4, 0xAC10_0000, 16);
    assert n[2] == Subnet(V4, 0xC0A8_0000, 16) && n[3] == Subnet(V4, 0x7F00_0000, 8);
    assert InPrivateNets(ip) <==> Contains(n[0], ip) || Contains(n[1], ip) || Contains(n[2], ip) || Contains(n[3], ip);
  }

  /** One protocol's addresses on the private side. */
  function PrivateList(localAddrs: seq<Ip>, ignoreAddrs: seq<Ip>, port: int): set<Addr> {
    set ip | ip in localAddrs && IsPrivateNetwork(ignoreAddrs, ip) && port > 0 :: Addr(ip, port)
  }

  /** One protocol's addresses on the public side, where ignoring has no effect. */
  function PublicList(localAddrs: seq<Ip>, port: int): set<Addr> {
    set ip | ip in localAddrs && !InPrivateNets(ip) && port > 0 :: Addr(ip, port)
  }

  /** A private address, by its range, that is not ignored, on this configured port. */
  predicate WantedPrivate(localAddrs: seq<Ip>, ignoreAddrs: seq<Ip>, port: int, a: Addr) {
    a.ip in localAddrs && a.ip !in ignoreAddrs && InPrivateRanges(a.ip) && a.port == port && port > 0
  }

  /** Any other address on this configured port. */
  predicate WantedPublic(localAddrs: seq<Ip>, port: int, a: Addr) {
    a.ip in localAddrs && !InPrivateRanges(a.ip) && a.port == port && port > 0
  }

  /** The lists hold exactly those. */
  lemma ListsAreWanted(localAddrs: seq<Ip>, ignoreAddrs: seq<Ip>, port: int, a: Addr)
    ensures a in PrivateList(localAddrs, ignoreAddrs, port) <==> WantedPrivate(localAddrs, ignoreAddrs, port, a)
    ensures a in PublicList(localAddrs, port) <==> WantedPublic(localAddrs, port, a)
  {
    PrivateRanges(a.ip);
    if a.port == port {
      assert a == Addr(a.ip, port);
    }
  }

  /** Local addresses are looked at one after the other. */
  lemma ListsGrow(localAddrs: seq<Ip>, ignoreAddrs: seq<Ip>, port: int, n: nat)
    requires n < |localAddrs|
    ensures var ip := localAddrs[n];
            PrivateList(localAddrs[..n + 1], ignoreAddrs, port) ==
              PrivateList(localAddrs[..n], ignoreAddrs, port)
              + (if IsPrivateNetwork(ignoreAddrs, ip) && port > 0 then {Addr(ip, port)} else {})
            && PublicList(localAddrs[..n + 1], port) ==
              PublicList(localAddrs[..n], port) + (if !InPrivateNets(ip) && port > 0 then {Addr(ip, port)} else {})
  {
    assert localAddrs[..n + 1] == localAddrs[..n] + [localAddrs[n]];
  }

  /** The scan of the private networks. */
  method ScanPrivateNets(ip: Ip) returns (local: bool)
    ensures local == InPrivateRanges(ip)
  {
    PrivateRanges(ip);
    for i := 0 to |PRIVATE_NETS|
      invariant forall j :: 0 <= j < i ==> !Contains(PRIVATE_NETS[j], ip)
    {
      if Contains(PRIVATE_NETS[i], ip) {
        return true;
      }
    }
    return false;
  }

  // ----- what one restart does to the addresses -----

  /** Attempts to listen that the system refuses, by address and protocol (true for TLS). */
  type Refusals = set<(Addr, bool)>

  predicate Opens(http: set<Addr>, tls: set<Addr>, refused: Refusals, a: Addr) {
    (a in http && (a, false) !in refused) || (a in tls && (a, true) !in refused)
  }

  /** The addresses listened on after a restart: those already open and still wanted, and those
      wanted of which some attempt succeeded. */
  function KeysAfter(keys: set<Addr>, http: set<Addr>, tls: set<Addr>, refused: Refusals): set<Addr> {
    keys * (http + tls) + set a | a in http + tls - keys && Opens(http, tls, refused, a)
  }

  /** With nothing refused a restart reaches exactly the wanted addresses. */
  lemma UnrefusedReachesAll(keys: set<Addr>, http: set<Addr>, tls: set<Addr>)
    ensures KeysAfter(keys, http, tls, {}) == http + tls
  {
  }

  /** A restart whose wanted addresses are the open ones changes nothing, whatever is refused. */
  lemma KeepsWanted(keys: set<Addr>, http: set<Addr>, tls: set<Addr>, refused: Refusals)
    requires keys == http + tls
    ensures KeysAfter(keys, http, tls, refused) == keys
  {
  }

  // ----- the objects -----

  /** The addresses that this process has open sockets on. */
  class NetStack {
    var bound: set<Addr>

    constructor ()
      ensures bound == {}
    {
      bound := {};
    }
  }

  class SrvAppListener {
    const addr: Addr
    /** The TLS configuration it was opened with; none for plain HTTP. */
    const config: Option<int>
    var closing: bool

    constructor (addr: Addr, config: Option<int>)
      ensures this.addr == addr && this.config == config && !closing
    {
      this.addr, this.config, closing := addr, config, false;
    }

    /** Closing twice closes once. */
    method Close(net: NetStack)
      modifies this, net
      ensures closing
      ensures net.bound == if old(closing) then old(net.bound) else old(net.bound) - {addr}
    {
      if closing {
        return;
      }
      closing := true;
      net.bound := net.bound - {addr};
    }
  }

  type ListenerMap = map<Addr, SrvAppListener>

  /** `listen`: fails when the system refuses, and on an address that is open already. `ever` are the
      listeners opened so far; the new one is recorded here, where it is opened. */
  method Listen(net: NetStack, addr: Addr, config: Option<int>, refuses: bool, ghost ever: set<SrvAppListener>)
    returns (ln: Option<SrvAppListener>, ghost recorded: set<SrvAppListener>)
    modifies net
    ensures ln.Some? <==> !refuses && addr !in old(net.bound)
    ensures ln.Some? ==> fresh(ln.value) && ln.value.addr == addr && ln.value.config == config && !ln.value.closing
    ensures net.bound == if ln.Some? then old(net.bound) + {addr} else old(net.bound)
    ensures recorded == if ln.Some? then ever + {ln.value} else ever
  {
    if refuses || addr in net.bound {
      return None, ever;
    }
    net.bound := net.bound + {addr};
    var l := new SrvAppListener(addr, config);
    return Some(l), ever + {l};
  }

  /** Every listener in the map is open and filed under its own address. */
  ghost predicate MapOk(m: ListenerMap)
    reads m.Values
  {
    forall a :: a in m ==> m[a].addr == a && !m[a].closing
  }

  /** The first loop of a restart: close and drop what is not wanted, strike what is open already off
      the lists. An address on both lists is struck off the first only. */
  method CloseOld(net: NetStack, earlier: ListenerMap, httpList: set<Addr>, tlsList: set<Addr>)
    returns (kept: ListenerMap, http: set<Addr>, tls: set<Addr>)
    requires MapOk(earlier) && earlier.Keys <= net.bound
    modifies net, earlier.Values
    ensures kept == map a | a in earlier && a in httpList + tlsList :: earlier[a]
    ensures forall a :: a in earlier ==> earlier[a].closing == (a !in httpList + tlsList)
    ensures http == httpList - earlier.Keys
    ensures tls == tlsList - (earlier.Keys - httpList)
    ensures net.bound == old(net.bound) - (earlier.Keys - httpList - tlsList)
  {
    kept, http, tls := earlier, httpList, tlsList;
    var rest := earlier.Keys;
    while rest != {}
      invariant rest <= earlier.Keys
      invariant kept == map a | a in earlier && (a in rest || a in httpList + tlsList) :: earlier[a]
      invariant forall a :: a in earlier ==> earlier[a].closing == (a !in rest && a !in httpList + tlsList)
      invariant http == httpList - (earlier.Keys - rest)
      invariant tls == tlsList - (earlier.Keys - rest - httpList)
      invariant net.bound == old(net.bound) - (earlier.Keys - rest - httpList - tlsList)
      decreases rest
    {
      var k :| k in rest;
      rest := rest - {k};
      if k in http {
        http := http - {k};
        continue;
      }
      if k in tls {
        tls := tls - {k};
        continue;
      }
      earlier[k].Close(net);
      kept := kept - {k};
    }
  }

  /** An open listener for this address and protocol. */
  ghost predicate Opened(l: SrvAppListener, a: Addr, config: Option<int>)
    reads l
  {
    l.addr == a && l.config == config && !l.closing
  }

  /** Half way through a loop that opens listeners: `now` has what was there `before`, as it was, and
      new open listeners for `news`; `ever` were opened earlier, `recorded` until now. */
  ghost predicate Opening(before: ListenerMap, now: ListenerMap, news: set<Addr>, config: Option<int>,
                          ever: set<SrvAppListener>, recorded: set<SrvAppListener>)
    reads now.Values
  {
    now.Keys == before.Keys + news && news !! before.Keys
    && (forall a :: a in before ==> now[a] == before[a])
    && (forall a :: a in news ==> Opened(now[a], a, config) && now[a] !in ever)
    && recorded == ever + now.Values
  }

  lemma OpeningGrows(before: ListenerMap, now: ListenerMap, news: set<Addr>, config: Option<int>,
                     ever: set<SrvAppListener>, recorded: set<SrvAppListener>, i: Addr, l: SrvAppListener)
    requires Opening(before, now, news, config, ever, recorded)
    requires i !in now && Opened(l, i, config) && l !in ever
    ensures Opening(before, now[i := l], news + {i}, config, ever, recorded + {l})
  {
    ValuesGrow(now, i, l);
  }

  /** The body of a loop that opens listeners: one address. */
  method OpenOne(net: NetStack, now: ListenerMap, i: Addr, config: Option<int>, refuses: bool,
                 ghost before: ListenerMap, ghost news: set<Addr>, ghost ever: set<SrvAppListener>,
                 ghost sofar: set<SrvAppListener>)
    returns (after: ListenerMap, ghost recorded: set<SrvAppListener>)
    requires now.Keys <= net.bound && Opening(before, now, news, config, ever, sofar)
    modifies net
    ensures var opens := i !in old(net.bound) && !refuses;
            Opening(before, after, if opens then news + {i} else news, config, ever, recorded)
            && net.bound == if opens then old(net.bound) + {i} else old(net.bound)
    ensures sofar <= recorded && fresh(recorded - sofar)
  {
    after := now;
    var ln;
    ln, recorded := Listen(net, i, config, refuses, sofar);
    if ln.Some? {
      OpeningGrows(before, now, news, config, ever, sofar, i, ln.value);
      after := after[i := ln.value];
    }
  }

  /** A loop that opens listeners: each address of the list is tried once, and those refused or open
      already are skipped. Whatever it opened is in the map at the end. */
  method OpenNew(net: NetStack, before: ListenerMap, list: set<Addr>, config: Option<int>, secure: bool,
                 refused: Refusals, ghost ever: set<SrvAppListener>)
    returns (after: ListenerMap, ghost recorded: set<SrvAppListener>)
    requires before.Keys <= net.bound && before.Values <= ever
    modifies net
    ensures Opening(before, after, NewKeys(list, old(net.bound), secure, refused), config, ever, recorded)
    ensures net.bound == old(net.bound) + NewKeys(list, old(net.bound), secure, refused)
    ensures fresh(recorded - ever)
  {
    after, recorded := before, ever;
    var rest := list;
    ghost var bound, news: set<Addr> := net.bound, {};
    assert NewKeys(list - rest, bound, secure, refused) == {};
    while rest != {}
      invariant rest <= list && news == NewKeys(list - rest, bound, secure, refused)
      invariant net.bound == bound + news && after.Keys <= net.bound
      invariant Opening(before, after, news, config, ever, recorded)
      invariant ever <= recorded && fresh(recorded - ever)
      decreases rest
    {
      var i :| i in rest;
      NewKeysStep(list, rest, i, bound, secure, refused);
      after, recorded := OpenOne(net, after, i, config, (i, secure) in refused, before, news, ever, recorded);
      rest := rest - {i};
      news := NewKeys(list - rest, bound, secure, refused);
    }
    assert list - rest == list;
  }

  lemma NewKeysStep(list: set<Addr>, rest: set<Addr>, i: Addr, bound: set<Addr>, secure: bool, refused: Refusals)
    requires rest <= list && i in rest
    ensures var news := NewKeys(list - rest, bound, secure, refused);
            i !in news && NewKeys(list - (rest - {i}), bound, secure, refused) ==
                          if i !in bound && (i, secure) !in refused then news + {i} else news
  {
    assert list - (rest - {i}) == (list - rest) + {i};
  }

  lemma ValuesGrow(m: ListenerMap, i: Addr, l: SrvAppListener)
    requires i !in m
    ensures m[i := l].Values == m.Values + {l}
  {
    var n := m[i := l];
    assert n[i] == l;
    assert forall a :: a in m ==> n[a] == m[a];
  }

  function NewKeys(list: set<Addr>, bound: set<Addr>, secure: bool, refused: Refusals): set<Addr> {
    set a | a in list && a !in bound && (a, secure) !in refused
  }

  lemma KeysAfterLoops(keys: set<Addr>, http: set<Addr>, tls: set<Addr>, bound: set<Addr>, refused: Refusals)
    requires keys <= bound && (bound - keys) !! (http + tls)
    ensures var open0 := bound - (keys - http - tls);
            var new1 := NewKeys(http - keys, open0, false, refused);
            var new2 := NewKeys(tls - (keys - http), open0 + new1, true, refused);
            KeysAfter(keys, http, tls, refused) == keys * (http + tls) + new1 + new2
            && new1 !! keys && new2 !! keys && new1 !! new2
            && open0 + new1 + new2 == bound - keys + KeysAfter(keys, http, tls, refused)
            && new1 == set a | a in http && a !in keys && (a, false) !in refused
  {
  }

  /** How the listeners after a restart relate to those before it: the addresses; what was open and is
      wanted is the same object; what is new is plain if the plain attempt succeeded. */
  ghost predicate Reconciled(earlier: ListenerMap, http: set<Addr>, tls: set<Addr>, tlsCfg: Option<int>,
                             refused: Refusals, after: ListenerMap)
  {
    after.Keys == KeysAfter(earlier.Keys, http, tls, refused)
    && (forall a :: a in earlier && a in http + tls ==> after[a] == earlier[a])
    && (forall a :: a in after && a !in earlier ==>
          after[a].addr == a && after[a].config == if a in http && (a, false) !in refused then None else tlsCfg)
  }

  /** The three loops that `restartPrivateHttp` and `restartPublicHttp` both run on their own lists.
      No address of the lists is open on the other side. */
  method Restart(net: NetStack, earlier: ListenerMap, httpList: set<Addr>, tlsList: set<Addr>,
                 tlsCfg: Option<int>, refused: Refusals, ghost ever: set<SrvAppListener>)
    returns (after: ListenerMap, ghost recorded: set<SrvAppListener>)
    requires MapOk(earlier) && earlier.Keys <= net.bound && earlier.Values <= ever
    requires (net.bound - earlier.Keys) !! (httpList + tlsList)
    modifies net, earlier.Values
    ensures MapOk(after) && Reconciled(earlier, httpList, tlsList, tlsCfg, refused, after)
    // what was open and is not wanted is closed, and what is new is a new object
    ensures forall a :: a in earlier ==> earlier[a].closing == (a !in httpList + tlsList)
    ensures forall a :: a in after && a !in earlier ==> fresh(after[a])
    ensures net.bound == old(net.bound) - earlier.Keys + after.Keys
    // nothing opened on the way is lost
    ensures recorded == ever + after.Values && fresh(recorded - ever)
  {
    KeysAfterLoops(earlier.Keys, httpList, tlsList, net.bound, refused);
    var kept, http, tls := CloseOld(net, earlier, httpList, tlsList);
    var middle;
    middle, recorded := OpenNew(net, kept, http, None, false, refused, ever);
    after, recorded := OpenNew(net, middle, tls, tlsCfg, true, refused, recorded);
    assert recorded == ever + after.Values by {
      assert forall a :: a in after ==> after[a] in recorded;
    }
  }

  /** A second restart with the same wanted addresses keeps every listener object and opens none,
      exactly when the system refuses again what was missing; in particular when it refuses the same
      attempts. */
  lemma RepeatedRestartKeepsListeners(earlier: ListenerMap, http: set<Addr>, tls: set<Addr>, tlsCfg: Option<int>,
                                      refused: Refusals, middle: ListenerMap,
                                      laterCfg: Option<int>, later: Refusals, after: ListenerMap)
    requires Reconciled(earlier, http, tls, tlsCfg, refused, middle)
    requires Reconciled(middle, http, tls, laterCfg, later, after)
    ensures after == middle <==> forall a :: a in http + tls && a !in middle ==> !Opens(http, tls, later, a)
    ensures later == refused ==> after == middle
  {
    assert middle.Keys <= http + tls;
    assert forall a :: a in middle ==> a in after && after[a] == middle[a];
    assert after == middle <==> after.Keys == middle.Keys;
  }

  // ----- does each address speak its protocol -----

  /** The listeners on the plain addresses are plain, and the others use TLS. */
  ghost predicate SpeaksAsConfigured(m: ListenerMap, http: set<Addr>) {
    forall a :: a in m ==> (m[a].config == None <==> a in http)
  }

  /** After a restart every address speaks the protocol configured for it exactly when every listener
      kept from before already did and, without certificates, every attempt to open a TLS address is
      refused. */
  lemma ProtocolsRightExactlyWhen(earlier: ListenerMap, http: set<Addr>, tls: set<Addr>, tlsCfg: Option<int>,
                                  refused: Refusals, after: ListenerMap)
    requires http !! tls && Reconciled(earlier, http, tls, tlsCfg, refused, after)
    ensures SpeaksAsConfigured(after, http) <==>
            (forall a :: a in earlier && a in http + tls ==> (earlier[a].config == None <==> a in http))
            && (tlsCfg.Some? || forall a :: a in tls && a !in earlier ==> (a, true) in refused)
  {
    assert forall a :: a in tls && a !in earlier ==> (a in after <==> (a, true) !in refused);
    if SpeaksAsConfigured(after, http) {
      forall a | a in earlier && a in http + tls
        ensures earlier[a].config == None <==> a in http
      {
        assert a in after && after[a] == earlier[a];
      }
    }
  }

  /** So when the plain and the TLS ports trade places, every listener is kept and every one of them
      speaks the wrong protocol, the plain ones where TLS is configured and the other way round. */
  lemma SwappedPortsSpeakTheWrongProtocol(earlier: ListenerMap, http: set<Addr>, tls: set<Addr>, tlsCfg: Option<int>,
                                          refused: Refusals, after: ListenerMap)
    requires http !! tls && earlier.Keys == http + tls && SpeaksAsConfigured(earlier, http)
    requires Reconciled(earlier, tls, http, tlsCfg, refused, after)
    ensures after == earlier
    ensures forall a :: a in after ==> (after[a].config == None <==> a !in tls)
  {
    KeepsWanted(earlier.Keys, tls, http, refused);
  }
}
