/** The ring of recent requests (ipStats.go) and the history it stands for. */
module IpStats {
  import opened Options

  datatype RequestLog = RequestLog(host: string, path: string, pattern: string, status: int,
                                   accessLevel: int, timestamp: int)

  class IpsBuffer {
    const ring: array<Option<RequestLog>>
    var at: nat
    ghost var history: seq<RequestLog>

    /** The element `k` steps after the current one. */
    ghost function After(k: nat): nat
      reads this
      requires k < ring.Length
    {
      if at + k < ring.Length then at + k else at + k - ring.Length
    }

    /** What the element `k` steps ahead must hold: the ring is full of the latest events, the oldest
        at the current element, and the elements not yet written are empty. */
    ghost function Expected(k: nat): Option<RequestLog>
      reads this
      requires k < ring.Length
    {
      var pos := |history| - ring.Length + k;
      if pos < 0 then None else Some(history[pos])
    }

    ghost predicate Valid()
      reads this, ring
    {
      at < ring.Length && forall k :: 0 <= k < ring.Length ==> ring[After(k)] == Expected(k)
    }

    constructor (n: nat)
      requires n > 0
      ensures Valid() && ring.Length == n && history == [] && fresh(ring)
    {
      ring := new Option<RequestLog>[n](_ => None);
      at := 0;
      history := [];
    }

    method Next(i: nat) returns (j: nat)
      requires i < ring.Length
      ensures j == if i + 1 == ring.Length then 0 else i + 1
    {
      j := if i + 1 == ring.Length then 0 else i + 1;
    }

    /** The step of the consumer goroutine: write the current element, then move on. */
    method Record(data: RequestLog)
      requires Valid()
      modifies this, ring
      ensures Valid() && history == old(history) + [data]
    {
      ring[at] := Some(data);
      at := Next(at);
      history := history + [data];
      forall k | 0 <= k < ring.Length
        ensures ring[After(k)] == Expected(k)
      {
        if k + 1 < ring.Length {
          assert After(k) == old(After(k + 1));
          assert old(ring[After(k + 1)]) == old(Expected(k + 1));
        }
      }
    }

    /** `ipsGetBuffer`: walks once round the ring from the current element and collects what it
        finds, which is exactly the latest events that fit, oldest first. */
    method GetBuffer() returns (tmp: seq<RequestLog>)
      requires Valid()
      ensures |tmp| == if |history| < ring.Length then |history| else ring.Length
      ensures tmp == history[|history| - |tmp|..]
    {
      tmp := [];
      var p := at;
      for k := 0 to ring.Length
        invariant k < ring.Length ==> p == After(k)
        invariant |history| < ring.Length - k ==> tmp == []
        invariant |history| >= ring.Length - k ==>
                    var from := if |history| <= ring.Length then 0 else |history| - ring.Length;
                    tmp == history[from..|history| - ring.Length + k]
      {
        assert ring[After(k)] == Expected(k);
        if ring[p].Some? {
          tmp := tmp + [ring[p].value];
        }
        p := Next(p);
      }
    }
  }
}
