/** The cached geo lookup of geoIPSec.go and the history of lookups it stands for. */
module GeoCache {
  import opened Options

  type Host = string

  datatype GeoData = GeoData(country: string, countryCode: string, region: string, city: string, zipCode: string)

  const GEO_DATA_LOCAL := GeoData("RFC1918", "RF", "RFC1918", "RFC1918", "RFC1918")
  const GEO_DATA_UNKNOWN := GeoData("Unknown", "UU", "Unknown", "Unknown", "Unknown")

  /** 24 hours, in seconds. */
  const DAY: int := 24 * 60 * 60

  /** One call: whether the host is private, the time of the age check, what the geo service would
      answer (`None` for any failure to reach it or to read its reply), and the time of its answer. */
  datatype Call = Call(host: Host, isPrivate: bool, now: int, reply: Option<GeoData>, answered: int)

  datatype Cache = Cache(data: map<Host, GeoData>, updated: map<Host, int>)

  const EMPTY_CACHE := Cache(map[], map[])

  // ----- one call -----

  /** A cached host with a timestamp is stale after a day; one without a timestamp never is. */
  predicate IsStale(c: Cache, host: Host, now: int) {
    host in c.updated && c.updated[host] < now - DAY
  }

  predicate Requests(c: Cache, call: Call) {
    !call.isPrivate && (call.host !in c.data || IsStale(c, call.host, call.now))
  }

  function After(c: Cache, call: Call): Cache {
    if !Requests(c, call) then c
    else if call.reply.Some?
    then Cache(c.data[call.host := call.reply.value], c.updated[call.host := call.answered])
    else c.(updated := if call.host in c.data then c.updated - {call.host} else c.updated)
  }

  function Answer(c: Cache, call: Call): GeoData {
    if call.isPrivate then GEO_DATA_LOCAL
    else if Requests(c, call) then call.reply.GetOr(GEO_DATA_UNKNOWN)
    else if call.host in c.data then c.data[call.host] else GEO_DATA_UNKNOWN
  }

  function Run(calls: seq<Call>): Cache {
    if calls == [] then EMPTY_CACHE else After(Run(calls[..|calls| - 1]), calls[|calls| - 1])
  }

  // ----- the history of a host -----

  /** What the lookups made so far say of a host: none succeeded; or the last to succeed brought
      `data` at time `at`, and `failed` tells whether a lookup has failed since. */
  datatype Record = Never | Last(data: GeoData, at: int, failed: bool)

  /** The reference: a lookup is made for a public host that has never been looked up with success,
      or whose last success is over a day old with no failure since. */
  predicate LooksUp(r: Record, call: Call) {
    !call.isPrivate && (r.Never? || (!r.failed && call.now - r.at > DAY))
  }

  function Update(r: Record, call: Call): Record {
    if !LooksUp(r, call) then r
    else if call.reply.Some? then Last(call.reply.value, call.answered, false)
    else if r.Last? then r.(failed := true) else Never
  }

  function History(calls: seq<Call>, host: Host): Record {
    if calls == [] then Never
    else
      var before := History(calls[..|calls| - 1], host);
      var call := calls[|calls| - 1];
      if call.host == host then Update(before, call) else before
  }

  ghost predicate Agrees(c: Cache, host: Host, r: Record) {
    match r
    case Never => host !in c.data && host !in c.updated
    case Last(data, at, failed) =>
      host in c.data && c.data[host] == data
      && (host in c.updated <==> !failed) && (!failed ==> c.updated[host] == at)
  }

  /** After any run, the two maps hold for every host exactly what its history says: the data of the
      last success, and its time unless a refresh has failed since. */
  lemma {:induction false} CacheIsHistory(calls: seq<Call>, host: Host)
    ensures Agrees(Run(calls), host, History(calls, host))
  {
    if calls != [] {
      CacheIsHistory(calls[..|calls| - 1], host);
      CacheIsHistory(calls[..|calls| - 1], calls[|calls| - 1].host);
    }
  }

  // ----- private hosts -----

  /** The run without its calls for private hosts. */
  function PublicCalls(calls: seq<Call>): seq<Call> {
    if calls == [] then []
    else
      var before, last := PublicCalls(calls[..|calls| - 1]), calls[|calls| - 1];
      if last.isPrivate then before else before + [last]
  }

  /** A run leaves the maps that it would leave without them. */
  lemma {:induction false} PrivateCallsLeaveNoTrace(calls: seq<Call>)
    ensures Run(calls) == Run(PublicCalls(calls))
  {
    if calls != [] {
      var before, last := calls[..|calls| - 1], calls[|calls| - 1];
      PrivateCallsLeaveNoTrace(before);
      if !last.isPrivate {
        var public := PublicCalls(before);
        assert (public + [last])[..|public|] == public;
      }
    }
  }

  /** After any run, a private host is answered with the record of its own, whatever is cached for it and
      whatever the service would reply; that record is not the one for an unknown host, nothing is
      requested, and the maps stay as they were. */
  lemma PrivateHostIsLocal(calls: seq<Call>, call: Call)
    requires call.isPrivate
    ensures Answer(Run(calls), call) == GeoData("RFC1918", "RF", "RFC1918", "RFC1918", "RFC1918")
    ensures Answer(Run(calls), call).country != GEO_DATA_UNKNOWN.country
    ensures !Requests(Run(calls), call) && Run(calls + [call]) == Run(calls)
  {
    assert (calls + [call])[..|calls|] == calls;
  }

  /** The one age limit: of a public host whose last lookup succeeded, a new one is made exactly when that
      is more than 86,400 seconds ago. */
  lemma AgeLimit(calls: seq<Call>, call: Call)
    requires var r := History(calls, call.host); r.Last? && !r.failed
    ensures Requests(Run(calls), call) <==> !call.isPrivate && call.now > History(calls, call.host).at + 86_400
  {
    CacheIsHistory(calls, call.host);
  }

  /** A request goes out exactly when the host's history asks for one. */
  lemma RequestsExactlyWhenDue(calls: seq<Call>, call: Call)
    ensures Requests(Run(calls), call) <==> LooksUp(History(calls, call.host), call)
  {
    CacheIsHistory(calls, call.host);
  }

  /** A public host is answered with Unknown when the lookup it needed failed, and with its most
      recent successful lookup, this one included, in every other case. */
  lemma AnswerIsUnknownOrLatest(calls: seq<Call>, call: Call)
    requires !call.isPrivate
    ensures var after := History(calls + [call], call.host);
            var answer := Answer(Run(calls), call);
            if LooksUp(History(calls, call.host), call) && call.reply == None
            then answer == GeoData("Unknown", "UU", "Unknown", "Unknown", "Unknown")
            else after.Last? && answer == after.data
  {
    CacheIsHistory(calls, call.host);
    assert (calls + [call])[..|calls|] == calls;
  }

  /** An answer from the cache is over a day old only if a refresh has failed since it was fetched. */
  lemma CachedAnswerIsFresh(calls: seq<Call>, call: Call)
    requires !call.isPrivate && !Requests(Run(calls), call)
    ensures var r := History(calls, call.host);
            r.Last? && Answer(Run(calls), call) == r.data && (call.now - r.at > DAY ==> r.failed)
  {
    CacheIsHistory(calls, call.host);
  }

  /** Once a refresh has failed, the host is never looked up again: every later answer is the data
      of the last success, whatever the age. */
  lemma {:induction false} FailedRefreshIsServedForever(calls: seq<Call>, more: seq<Call>, call: Call)
    requires var r := History(calls, call.host); r.Last? && r.failed
    ensures History(calls + more, call.host) == History(calls, call.host)
    ensures !Requests(Run(calls + more), call)
    ensures !call.isPrivate ==> Answer(Run(calls + more), call) == History(calls, call.host).data
    decreases |more|
  {
    if more == [] {
      assert calls + more == calls;
    } else {
      FailedRefreshIsServedForever(calls, more[..|more| - 1], call);
      assert (calls + more)[..|calls + more| - 1] == calls + more[..|more| - 1];
    }
    CacheIsHistory(calls + more, call.host);
  }

  /** That state is reached: data fetched at time 0, a failed refresh two days later. */
  lemma StaleAnswerHappens(host: Host, data: GeoData)
    ensures var calls := [Call(host, false, 0, Some(data), 0), Call(host, false, 2 * DAY, None, 2 * DAY)];
            History(calls, host) == Last(data, 0, true)
  {
    var first := Call(host, false, 0, Some(data), 0);
    var second := Call(host, false, 2 * DAY, None, 2 * DAY);
    assert [first, second][..1] == [first] && [first][..0] == [];
    assert History([first], host) == Last(data, 0, false);
  }

  // ----- the maps -----

  class GeoResolver {
    var geoDataMap: map<Host, GeoData>
    var geoLastUpdate: map<Host, int>
    ghost var calls: seq<Call>

    ghost function State(): Cache
      reads this
    {
      Cache(geoDataMap, geoLastUpdate)
    }

    ghost predicate Valid()
      reads this
    {
      State() == Run(calls)
    }

    constructor ()
      ensures Valid() && calls == []
    {
      geoDataMap, geoLastUpdate, calls := map[], map[], [];
    }

    /** `geoResolveAddr`. */
    method ResolveAddr(call: Call) returns (data: GeoData)
      requires Valid()
      modifies this
      ensures Valid() && calls == old(calls) + [call]
      ensures State() == After(old(State()), call) && data == Answer(old(State()), call)
      ensures call.isPrivate ==> data.country == "RFC1918" && State() == old(State())
    {
      calls := calls + [call];
      assert calls[..|calls| - 1] == old(calls);
      var host := call.host;
      if call.isPrivate {
        return GEO_DATA_LOCAL;
      }
      if host in geoDataMap {
        if host in geoLastUpdate && geoLastUpdate[host] < call.now - DAY {
          geoLastUpdate := geoLastUpdate - {host};
        } else {
          return geoDataMap[host];
        }
      } else {
        CacheIsHistory(old(calls), host);
      }
      if call.reply == None {
        return GEO_DATA_UNKNOWN;
      }
      geoDataMap := geoDataMap[host := call.reply.value];
      geoLastUpdate := geoLastUpdate[host := call.answered];
      return call.reply.value;
    }
  }
}
