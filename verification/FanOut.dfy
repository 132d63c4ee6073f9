/** Local transactions: the peer snapshot is cut into chunks, one worker job each, and the
    broadcast loop always uses the snapshot of its latest tick. */
module FanOut {
  import opened Sequences

  /** Chunk length for n peers on `cpu` processors. */
  function Unit(n: nat, cpu: nat): (u: nat)
    requires 1 <= cpu
    ensures 1 <= u
  {
    if n / cpu == 0 then 1 else n / cpu
  }

  /** The least number of chunks of length u that cover n peers. */
  ghost predicate Covers(jobs: nat, u: nat, n: nat) {
    jobs * u >= n && (jobs > 0 ==> jobs * u < n + u)
  }

  lemma AtLeast(a: int, b: int, c: nat)
    requires a >= b
    ensures a * c >= b * c
  {
  }

  lemma OneMore(a: int, c: int)
    ensures (a + 1) * c == a * c + c
  {
  }

  lemma Quotient(n: nat, cpu: nat)
    requires 1 <= cpu
    ensures (n / cpu) * cpu <= n < (n / cpu) * cpu + cpu
  {
  }

  /** 2 * cpu chunks would already start beyond the end of the list. */
  lemma TooManyJobs(jobs: nat, cpu: nat, u: nat)
    requires 1 <= cpu && 1 <= u
    ensures jobs >= 2 * cpu ==> jobs * u >= u * cpu + (cpu - 1) + u
    ensures jobs >= cpu + 2 ==> jobs * u >= u * cpu + u + u
  {
    if jobs >= 2 * cpu {
      AtLeast(jobs, cpu + cpu, u);
      Twice(cpu, u);
      AtLeast(u - 1, 0, cpu - 1);
      Shifted(u, cpu);
    }
    if jobs >= cpu + 2 {
      AtLeast(jobs, cpu + 2, u);
      OneMore(cpu, u);
      OneMore(cpu + 1, u);
    }
  }

  lemma Twice(a: int, c: int)
    ensures (a + a) * c == c * a + c * a
  {
  }

  lemma Shifted(u: int, c: int)
    ensures u * c == (u - 1) * (c - 1) + (c - 1) + u
  {
  }

  lemma LargeQuotient(n: nat, cpu: nat)
    requires 1 <= cpu && n >= cpu * cpu
    ensures n / cpu >= cpu
  {
    Quotient(n, cpu);
    var q := n / cpu;
    OneMore(q, cpu);
    if q < cpu {
      AtLeast(cpu, q + 1, cpu);
    }
  }

  lemma JobBound(jobs: nat, n: nat, cpu: nat)
    requires 1 <= cpu && Covers(jobs, Unit(n, cpu), n)
    ensures jobs <= 2 * cpu - 1
    ensures n >= cpu * cpu ==> jobs <= cpu + 1
  {
    Quotient(n, cpu);
    if n / cpu == 0 {
      assert jobs <= n;
    } else {
      TooManyJobs(jobs, cpu, n / cpu);
      if n >= cpu * cpu {
        LargeQuotient(n, cpu);
      }
    }
  }

  lemma QuotientIs(n: nat, cpu: nat, q: nat)
    requires 1 <= cpu && q * cpu <= n < q * cpu + cpu
    ensures n / cpu == q
  {
    Quotient(n, cpu);
    var r := n / cpu;
    OneMore(q, cpu);
    OneMore(r, cpu);
    if r > q {
      AtLeast(r, q + 1, cpu);
    } else if r < q {
      AtLeast(q, r + 1, cpu);
    }
  }

  /** A full chunk: the largest equal share of n peers for each processor, but at least one. */
  ghost predicate IsShare(u: nat, n: nat, cpu: nat) {
    if n < cpu then u == 1 else u * cpu <= n < (u + 1) * cpu
  }

  lemma UnitIsShare(n: nat, cpu: nat)
    requires 1 <= cpu
    ensures IsShare(Unit(n, cpu), n, cpu)
  {
    Quotient(n, cpu);
    OneMore(n / cpu, cpu);
    if n / cpu == 0 {
      assert n < cpu;
    } else {
      AtLeast(n / cpu, 1, cpu);
    }
  }

  /** No processor is left without a job while there are peers for it. */
  lemma EnoughJobs(jobs: nat, n: nat, cpu: nat)
    requires 1 <= cpu && Covers(jobs, Unit(n, cpu), n)
    ensures jobs >= if n < cpu then n else cpu
  {
    UnitIsShare(n, cpu);
    if n >= cpu && jobs < cpu {
      AtLeast(cpu, jobs + 1, Unit(n, cpu));
      OneMore(jobs, Unit(n, cpu));
    }
  }

  /** Both bounds are reached. */
  lemma JobBoundReached(cpu: nat)
    requires 1 <= cpu
    ensures Covers(2 * cpu - 1, Unit(2 * cpu - 1, cpu), 2 * cpu - 1)
    ensures 2 <= cpu ==> Covers(cpu + 1, Unit(cpu * cpu + 1, cpu), cpu * cpu + 1)
  {
    QuotientIs(2 * cpu - 1, cpu, 1);
    if 2 <= cpu {
      QuotientIs(cpu * cpu + 1, cpu, cpu);
      assert (cpu + 1) * cpu == cpu * cpu + cpu;
    }
  }

  function Prefix<T>(s: seq<T>, n: nat): seq<T> {
    if n < |s| then s[..n] else s
  }

  lemma PrefixGrows<T>(s: seq<T>, from: nat, to: nat)
    requires from <= to <= |s|
    ensures Prefix(s, from) + s[from..to] == Prefix(s, to)
  {
  }

  /** The chunking loop, for any chunk length. */
  method Chunks<Peer>(peers: seq<Peer>, unit: nat) returns (jobs: seq<seq<Peer>>)
    requires 1 <= unit
    ensures Flatten(jobs) == peers
    ensures forall j :: j in jobs ==> 1 <= |j| <= unit
    ensures Covers(|jobs|, unit, |peers|)
    ensures forall k :: 0 <= k < |jobs| - 1 ==> |jobs[k]| == unit
  {
    jobs := [];
    var i := 0;
    ghost var from := 0;
    while i * unit < |peers|
      invariant |jobs| == i && from == i * unit
      invariant i > 0 ==> from < |peers| + unit
      invariant forall k :: 0 <= k < i ==> |jobs[k]| == unit || (k == i - 1 && from >= |peers|)
      invariant forall j :: j in jobs ==> 1 <= |j| <= unit
      invariant Flatten(jobs) == Prefix(peers, from)
      decreases |peers| - from
    {
      OneMore(i, unit);
      var to := (i + 1) * unit;
      if to > |peers| {
        to := |peers|;
      }
      var job := peers[i * unit..to];
      FlattenSnoc(jobs, job);
      PrefixGrows(peers, from, to);
      jobs := jobs + [job];
      i, from := i + 1, from + unit;
    }
  }

  /** The chunks are non-empty, concatenate to the peer list, and are as few as their
      length allows. */
  method SplitJobs<Peer>(peers: seq<Peer>, cpu: nat) returns (jobs: seq<seq<Peer>>)
    requires 1 <= cpu
    ensures Flatten(jobs) == peers
    ensures forall j :: j in jobs ==> 1 <= |j| <= Unit(|peers|, cpu)
    ensures Covers(|jobs|, Unit(|peers|, cpu), |peers|)
    ensures |jobs| <= 2 * cpu - 1
    ensures |peers| >= cpu * cpu ==> |jobs| <= cpu + 1
    ensures |jobs| >= if |peers| < cpu then |peers| else cpu
    ensures forall k :: 0 <= k < |jobs| - 1 ==> IsShare(|jobs[k]|, |peers|, cpu)
  {
    var unit := |peers| / cpu;
    if unit == 0 {
      unit := 1;
    }
    assert unit == Unit(|peers|, cpu);
    jobs := Chunks(peers, unit);
    JobBound(|jobs|, |peers|, cpu);
    EnoughJobs(|jobs|, |peers|, cpu);
    UnitIsShare(|peers|, cpu);
  }

  /** Jobs may be worked off in any order: every peer occurrence still gets one copy. */
  lemma {:induction false} AnyOrderOneCopyEach<Peer>(jobs: seq<seq<Peer>>, order: seq<seq<Peer>>)
    requires multiset(jobs) == multiset(order)
    ensures multiset(Flatten(jobs)) == multiset(Flatten(order))
  {
    if jobs == [] {
      assert |multiset(order)| == 0;
    } else {
      var n := |jobs| - 1;
      assert jobs == jobs[..n] + [jobs[n]];
      assert jobs[n] in multiset(order);
      var k :| 0 <= k < |order| && order[k] == jobs[n];
      var rest := order[..k] + order[k + 1..];
      assert order == order[..k] + [order[k]] + order[k + 1..];
      assert multiset(rest) == multiset(order) - multiset{jobs[n]};
      AnyOrderOneCopyEach(jobs[..n], rest);
      FlattenAppend(order[..k], order[k + 1..]);
      FlattenAppend(order[..k] + [order[k]], order[k + 1..]);
      FlattenSnoc(order[..k], order[k]);
    }
  }

  lemma {:induction false} FlattenAppend<T>(a: seq<seq<T>>, b: seq<seq<T>>)
    ensures Flatten(a + b) == Flatten(a) + Flatten(b)
  {
    if b == [] {
      assert a + b == a;
    } else {
      var p, x := b[..|b| - 1], b[|b| - 1];
      FlattenAppend(a, p);
      FlattenSnoc(a + p, x);
      assert a + b == (a + p) + [x];
      Associative(Flatten(a), Flatten(p), x);
    }
  }

  lemma Associative<T>(a: seq<T>, b: seq<T>, c: seq<T>)
    ensures (a + b) + c == a + (b + c)
  {
  }

  // ----- The broadcast loop -----

  /** What the loop's select may yield. `encodes` says whether RLP encoding succeeds. */
  datatype Event<Peer, Tx> =
    | Tick(peers: seq<Peer>)
    | Local(txs: seq<Tx>, encodes: bool)
    | FromPool(pooled: seq<Tx>)
    | Unsubscribed

  datatype Delivery<Peer, Tx> = Delivery(txs: seq<Tx>, jobs: seq<seq<Peer>>)

  /** The events up to the one that ends the loop. */
  function Live<Peer, Tx>(events: seq<Event<Peer, Tx>>): seq<Event<Peer, Tx>> {
    if events == [] || events[0].Unsubscribed? then [] else [events[0]] + Live(events[1..])
  }

  lemma LiveStep<Peer, Tx>(events: seq<Event<Peer, Tx>>, i: nat, seen: seq<Event<Peer, Tx>>)
    requires i < |events| && !events[i].Unsubscribed?
    ensures seen + Live(events[i..]) == seen + [events[i]] + Live(events[i + 1..])
  {
    assert events[i..][1..] == events[i + 1..];
  }

  predicate Sends<Peer, Tx>(e: Event<Peer, Tx>) {
    e.Local? && e.encodes
  }

  function CountSends<Peer, Tx>(events: seq<Event<Peer, Tx>>): nat {
    if events == [] then 0
    else CountSends(events[..|events| - 1]) + if Sends(events[|events| - 1]) then 1 else 0
  }

  /** `peers` is the snapshot of the last tick among the events, or empty without one. */
  ghost predicate IsLatestSnapshot<Peer, Tx>(events: seq<Event<Peer, Tx>>, peers: seq<Peer>) {
    if forall i :: 0 <= i < |events| ==> !events[i].Tick? then peers == []
    else exists i :: 0 <= i < |events| && events[i] == Tick(peers) && forall j :: i < j < |events| ==> !events[j].Tick?
  }

  /** The delivery for event k, if it is one that sends. */
  ghost predicate Delivered<Peer, Tx>(events: seq<Event<Peer, Tx>>, k: nat, sent: seq<Delivery<Peer, Tx>>)
    requires k < |events|
  {
    Sends(events[k]) ==>
      var at := CountSends(events[..k]);
      at < |sent| && sent[at].txs == events[k].txs && IsLatestSnapshot(events[..k], Flatten(sent[at].jobs))
  }

  /** Each encodable local batch goes out once, in order, to the peers of the latest tick. */
  method TxBroadcastLoop<Peer, Tx>(events: seq<Event<Peer, Tx>>, cpu: nat) returns (sent: seq<Delivery<Peer, Tx>>)
    requires 1 <= cpu
    ensures |sent| == CountSends(Live(events))
    ensures forall k :: 0 <= k < |Live(events)| ==> Delivered(Live(events), k, sent)
  {
    var peersCache: seq<Peer> := [];
    sent := [];
    ghost var seen: seq<Event<Peer, Tx>> := [];
    var i := 0;
    while i < |events| && !events[i].Unsubscribed?
      invariant 0 <= i <= |events| && seen + Live(events[i..]) == Live(events)
      invariant |sent| == CountSends(seen) && IsLatestSnapshot(seen, peersCache)
      invariant forall k :: 0 <= k < |seen| ==> Delivered(seen, k, sent)
    {
      var e := events[i];
      ghost var before, sentBefore := seen, sent;
      match e {
        case Tick(peers) =>
          peersCache := peers;
        case Local(txs, encodes) =>
          if encodes {
            var jobs := SplitJobs(peersCache, cpu);
            sent := sent + [Delivery(txs, jobs)];
          }
        case FromPool(_) =>
        case Unsubscribed =>
      }
      seen := seen + [e];
      OneMoreEvent(before, sentBefore, e, sent, peersCache);
      LiveStep(events, i, before);
      i := i + 1;
    }
    assert Live(events[i..]) == [];
    assert seen == Live(events);
  }

  lemma StillDelivered<Peer, Tx>(events: seq<Event<Peer, Tx>>, sent: seq<Delivery<Peer, Tx>>, e: Event<Peer, Tx>,
                                 sent': seq<Delivery<Peer, Tx>>)
    requires |sent| == CountSends(events) && sent <= sent'
    requires forall k :: 0 <= k < |events| ==> Delivered(events, k, sent)
    ensures forall k :: 0 <= k < |events| ==> Delivered(events + [e], k, sent')
  {
    forall k | 0 <= k < |events| ensures Delivered(events + [e], k, sent') {
      assert (events + [e])[..k] == events[..k];
      assert Delivered(events, k, sent);
    }
  }

  /** What handling one event must do, whichever event it is. */
  lemma OneMoreEvent<Peer, Tx>(events: seq<Event<Peer, Tx>>, sent: seq<Delivery<Peer, Tx>>, e: Event<Peer, Tx>,
                               sent': seq<Delivery<Peer, Tx>>, peers: seq<Peer>)
    requires |sent| == CountSends(events) && forall k :: 0 <= k < |events| ==> Delivered(events, k, sent)
    requires e.Tick? ==> e.peers == peers
    requires !e.Tick? ==> IsLatestSnapshot(events, peers)
    requires if Sends(e) then exists jobs :: sent' == sent + [Delivery(e.txs, jobs)] && Flatten(jobs) == peers
             else sent' == sent
    ensures var all := events + [e];
            && |sent'| == CountSends(all) && IsLatestSnapshot(all, peers)
            && forall k :: 0 <= k < |all| ==> Delivered(all, k, sent')
  {
    assert (events + [e])[..|events|] == events;
    StillDelivered(events, sent, e, sent');
    SameSnapshot(events, e, peers);
  }

  lemma SameSnapshot<Peer, Tx>(events: seq<Event<Peer, Tx>>, e: Event<Peer, Tx>, peers: seq<Peer>)
    ensures !e.Tick? && IsLatestSnapshot(events, peers) ==> IsLatestSnapshot(events + [e], peers)
    ensures e.Tick? && e.peers == peers ==> IsLatestSnapshot(events + [e], peers)
  {
    var all := events + [e];
    if e.Tick? && e.peers == peers {
      assert all[|events|] == Tick(peers);
    }
    if !e.Tick? && IsLatestSnapshot(events, peers) {
      if i :| 0 <= i < |events| && events[i].Tick? {
        assert all[i].Tick?;
        var l :| 0 <= l < |events| && events[l] == Tick(peers) && forall j :: l < j < |events| ==> !events[j].Tick?;
        assert all[l] == Tick(peers);
      }
    }
  }
}
