/** The eth packet handlers that answer sync challenges, over one pool object. */
module SyncHandlers {
  import opened Types
  import opened Lru
  import opened ChallengePool
  import Origin = OriginCodec

  datatype Query = Query(origin: Origin.Value, amount: Uint64, skip: Uint64, reverse: bool)

  /** A challenge asks by number for a single header; other queries are ignored. */
  predicate IsChallenge(q: Query) {
    q.origin.hash == ZERO_HASH && q.amount == 1
  }

  datatype OldOutcome = IgnoredQuery | SendFailed | Reflected(query: Query)

  /** Before eth/65: send the same query back, then remember who asked. The pool is used
      without a nil check here, so the caller must have one. */
  method HandleSyncChallenge(pool: SyncChallengeHeaderPool, peer: nat, q: Query, sendOk: bool) returns (r: OldOutcome)
    requires pool.Valid()
    modifies pool.cache, pool.cache.slots
    ensures pool.Valid()
    ensures r == (if !IsChallenge(q) then IgnoredQuery else if sendOk then Reflected(q) else SendFailed)
    ensures r.Reflected? ==>
              pool.Contents() == Apply(old(pool.Contents()), pool.cache.slots.Length, Remember(peer, q.origin.number))
    ensures !r.Reflected? ==> pool.Contents() == old(pool.Contents())
  {
    if q.origin.hash != ZERO_HASH {
      return IgnoredQuery;
    }
    if q.amount != 1 {
      return IgnoredQuery;
    }
    if !sendOk {
      return SendFailed;
    }
    pool.RememberChallenge(q.origin.number, peer);
    r := Reflected(q);
  }

  datatype Reply = Reply(requestId: Uint64, header: Header)

  datatype Outcome66 = Ignored66 | Fast(reply: Reply) | Slow(height: Uint64)

  /** From eth/65 on: answer from the cache when possible, otherwise ask the peer itself. A
      fast reply has the queried height (modulo 2^64) and the query's request id. */
  method HandleSyncChallenge66(pool: SyncChallengeHeaderPool?, requestId: Uint64, q: Query) returns (r: Outcome66)
    requires pool != null ==> pool.Valid()
    modifies if pool == null then {} else {pool.cache.slots}
    ensures pool != null ==> pool.Valid()
    ensures r.Ignored66? <==> !IsChallenge(q)
    ensures r.Fast? <==> IsChallenge(q) && pool != null && Lookup(old(pool.Contents()), Height(q.origin.number)).Some?
    ensures r.Fast? ==> r.reply.requestId == requestId && Low64(r.reply.header.number) == q.origin.number
                        && Lookup(old(pool.Contents()), Height(q.origin.number)) == Some(Known(r.reply.header))
    ensures r.Slow? ==> r.height == q.origin.number
    ensures pool != null && IsChallenge(q) ==>
              pool.Contents() == Apply(old(pool.Contents()), pool.cache.slots.Length, GetHeader(q.origin.number))
  {
    if q.origin.hash != ZERO_HASH {
      return Ignored66;
    }
    if q.amount != 1 {
      return Ignored66;
    }
    if pool != null {
      var header := pool.GetHeader(q.origin.number);
      if header.Some? {
        return Fast(Reply(requestId, header.value));
      }
    }
    r := Slow(q.origin.number);
  }

  /** How a query that went the slow way ends. */
  datatype SlowOutcome = Answered(reply: Reply) | WrongCount | Disconnected

  /** The slow path's end: the peer's own response, or None when the timer fires first. Exactly
      one header is relayed under the query's request id, and cached under its own number,
      which need not be the queried one; any other count is an error for the response's
      sender, and only the timeout disconnects the peer. */
  method SlowPathResponse(pool: SyncChallengeHeaderPool?, requestId: Uint64, response: Option<seq<Header>>)
    returns (r: SlowOutcome)
    requires pool != null ==> pool.Valid()
    modifies if pool == null then {} else {pool.cache, pool.cache.slots}
    ensures pool != null ==> pool.Valid()
    ensures r.Disconnected? <==> response.None?
    ensures r.Answered? <==> response.Some? && |response.value| == 1
    ensures r.Answered? ==> r.reply == Reply(requestId, response.value[0])
    ensures pool != null ==>
              pool.Contents() == if r.Answered?
                                 then Apply(old(pool.Contents()), pool.cache.slots.Length, AddHeader(r.reply.header))
                                 else old(pool.Contents())
    ensures pool != null && r.Answered? ==>
              Lookup(pool.Contents(), Height(Low64(r.reply.header.number))) == Some(Known(r.reply.header))
  {
    if response.None? {
      return Disconnected;
    }
    var headers := response.value;
    if |headers| != 1 {
      return WrongCount;
    }
    if pool != null {
      ghost var before := pool.Contents();
      pool.AddHeaderIfNotExists(headers[0]);
      InsertStores(before, pool.cache.slots.Length, Height(Low64(headers[0].number)), Known(headers[0]));
    }
    r := Answered(Reply(requestId, headers[0]));
  }

  datatype Relayed = Relayed(peer: nat, header: Header)

  /** A header packet from an old peer, handled without interruption: every peer waiting for
      its height gets it once per challenge, in arrival order, and nobody waits any more. */
  method HandleBlockHeaders(pool: SyncChallengeHeaderPool?, headers: seq<Header>) returns (sent: seq<Relayed>)
    requires pool != null ==> pool.Valid()
    modifies if pool == null then {} else {pool.cache, pool.cache.slots}
    ensures pool != null ==> pool.Valid()
    ensures pool == null || |headers| != 1 ==> sent == []
    ensures pool != null && |headers| != 1 ==> pool.Contents() == old(pool.Contents())
    ensures pool != null && |headers| == 1 ==>
              var n := Low64(headers[0].number);
              var waiting := PendingAt(old(pool.Contents()), n);
              && pool.Contents() == Apply(old(pool.Contents()), pool.cache.slots.Length, Clear(n))
              && |sent| == |waiting|
              && forall i :: 0 <= i < |sent| ==>
                   sent[i] == Relayed(waiting[i].peer, headers[0]) && waiting[i].asked == n
  {
    sent := [];
    if |headers| != 1 {
      return;
    }
    if pool == null {
      return;
    }
    var challenges := pool.ClearChallenge(Low64(headers[0].number));
    for i := 0 to |challenges|
      invariant |sent| == i && forall k :: 0 <= k < i ==> sent[k] == Relayed(challenges[k].peer, headers[0])
    {
      sent := sent + [Relayed(challenges[i].peer, headers[0])];
    }
  }
}
