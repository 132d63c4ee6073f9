/** A peer's known-set, the packet handlers that fill it, and the transposition of a
    transaction batch into one announcement list per peer. */
module Announce {
  import opened Types
  import opened Sequences
  import opened Batches

  /** A peer's fields as a value. */
  datatype PeerState = PeerState(known: set<Hash>, outbox: seq<seq<Hash>>, closed: bool)

  /** A closed peer drops an announcement; an open one queues it and marks its hashes. */
  function Announced(p: PeerState, hashes: seq<Hash>): PeerState {
    if p.closed || hashes == [] then p
    else p.(known := p.known + Elements(hashes), outbox := p.outbox + [hashes])
  }

  class Peer {
    /** Hashes the remote side is known to have. */
    var known: set<Hash>
    /** Announcement packets handed to the peer's queue. */
    var outbox: seq<seq<Hash>>
    /** Set once the connection is torn down; announcements are then dropped. */
    var closed: bool

    constructor ()
      ensures known == {} && outbox == [] && !closed
    {
      known, outbox, closed := {}, [], false;
    }

    ghost function State(): PeerState
      reads this
    {
      PeerState(known, outbox, closed)
    }

    method MarkTransaction(h: Hash)
      modifies this`known
      ensures known == old(known) + {h}
    {
      known := known + {h};
    }

    method AsyncSendPooledTransactionHashes(hashes: seq<Hash>)
      requires hashes != []
      modifies this
      ensures State() == Announced(old(State()), hashes)
    {
      if !closed {
        outbox := outbox + [hashes];
        known := known + Elements(hashes);
      }
    }

    /** Transactions are marked one by one, before any is delivered; a nil one stops the
        packet after its predecessors were marked. */
    method HandleTransactions(txs: seq<Option<Transaction>>) returns (delivered: Option<seq<Transaction>>)
      modifies this`known
      ensures known == old(known) + Elements(Hashes(BeforeNil(txs)))
      ensures delivered == if |BeforeNil(txs)| == |txs| then Some(BeforeNil(txs)) else None
    {
      ghost var start := known;
      var good: seq<Transaction> := [];
      for i := 0 to |txs|
        invariant good == BeforeNil(txs[..i]) && |good| == i
        invariant known == start + Elements(Hashes(good))
      {
        assert txs[..i + 1][..i] == txs[..i];
        if txs[i].None? {
          StopsAtNil(txs, i);
          return None;
        }
        var tx := txs[i].value;
        MarkTransaction(tx.hash);
        assert Hashes(good + [tx]) == Hashes(good) + [tx.hash];
        good := good + [tx];
      }
      assert txs[..|txs|] == txs;
      delivered := Some(good);
    }

    method HandleNewPooledTransactionHashes(hashes: seq<Hash>) returns (delivered: seq<Hash>)
      modifies this`known
      ensures known == old(known) + Elements(hashes) && delivered == hashes
    {
      for i := 0 to |hashes|
        invariant known == old(known) + Elements(hashes[..i])
      {
        assert hashes[..i + 1] == hashes[..i] + [hashes[i]];
        MarkTransaction(hashes[i]);
      }
      assert hashes[..|hashes|] == hashes;
      delivered := hashes;
    }
  }

  // ----- Counting announcements two ways -----

  /** How many of the known-sets lack h. */
  function Lacking(knowns: seq<set<Hash>>, h: Hash): nat {
    if knowns == [] then 0
    else Lacking(knowns[..|knowns| - 1], h) + if h in knowns[|knowns| - 1] then 0 else 1
  }

  /** Summed transaction by transaction. */
  function CountByTx(knowns: seq<set<Hash>>, hashes: seq<Hash>): nat {
    if hashes == [] then 0
    else CountByTx(knowns, hashes[..|hashes| - 1]) + Lacking(knowns, hashes[|hashes| - 1])
  }

  /** Summed peer by peer. */
  function CountByPeer(knowns: seq<set<Hash>>, hashes: seq<Hash>): nat {
    if knowns == [] then 0
    else CountByPeer(knowns[..|knowns| - 1], hashes) + |Unknown(knowns[|knowns| - 1], hashes)|
  }

  /** The transposition conserves announcements. */
  lemma {:induction false} CountsAgree(knowns: seq<set<Hash>>, hashes: seq<Hash>)
    ensures CountByTx(knowns, hashes) == CountByPeer(knowns, hashes)
  {
    if hashes == [] {
      NothingToCount(knowns);
    } else {
      CountsAgree(knowns, hashes[..|hashes| - 1]);
      OneMoreTx(knowns, hashes);
    }
  }

  lemma {:induction false} NothingToCount(knowns: seq<set<Hash>>)
    ensures CountByPeer(knowns, []) == 0
  {
    if knowns != [] {
      NothingToCount(knowns[..|knowns| - 1]);
    }
  }

  lemma {:induction false} OneMoreTx(knowns: seq<set<Hash>>, hashes: seq<Hash>)
    requires hashes != []
    ensures CountByPeer(knowns, hashes)
            == CountByPeer(knowns, hashes[..|hashes| - 1]) + Lacking(knowns, hashes[|hashes| - 1])
  {
    if knowns != [] {
      OneMoreTx(knowns[..|knowns| - 1], hashes);
    }
  }

  /** The size of all lists of a map together. */
  ghost function MapTotal(m: map<Peer, seq<Hash>>): nat
    decreases |m|
  {
    if m == map[] then 0
    else
      assert m.Keys != {};
      var p :| p in m;
      |m[p]| + MapTotal(m - {p})
  }

  lemma {:induction false} MapTotalWithout(m: map<Peer, seq<Hash>>, p: Peer)
    requires p in m
    ensures MapTotal(m) == |m[p]| + MapTotal(m - {p})
    decreases |m|
  {
    var q :| q in m && MapTotal(m) == |m[q]| + MapTotal(m - {q});
    if q != p {
      MapTotalWithout(m - {q}, p);
      MapTotalWithout(m - {p}, q);
      assert m - {q} - {p} == m - {p} - {q};
    }
  }

  function ListOf(m: map<Peer, seq<Hash>>, p: Peer): seq<Hash> {
    if p in m then m[p] else []
  }

  lemma MapTotalAppend(m: map<Peer, seq<Hash>>, p: Peer, h: Hash)
    ensures MapTotal(m[p := ListOf(m, p) + [h]]) == MapTotal(m) + 1
  {
    var m' := m[p := ListOf(m, p) + [h]];
    MapTotalWithout(m', p);
    assert m' - {p} == m - {p};
    if p in m {
      MapTotalWithout(m, p);
    } else {
      assert m - {p} == m;
    }
  }

  // ----- BroadcastTransactions, the branch for remote transactions -----

  ghost function Knowns(peers: seq<Peer>): (ks: seq<set<Hash>>)
    reads peers
  {
    seq(|peers|, i requires 0 <= i < |peers| reads peers => peers[i].known)
  }

  /** The registered peers not known to have h, in the peer set's iteration order. */
  method PeersWithoutTransaction(peers: seq<Peer>, ghost knowns: seq<set<Hash>>, h: Hash) returns (list: seq<Peer>)
    requires Distinct(peers) && knowns == Knowns(peers)
    ensures Distinct(list) && |list| == Lacking(knowns, h)
    ensures forall p :: p in list ==> p in peers
    ensures forall i :: 0 <= i < |peers| ==> (peers[i] in list <==> h !in knowns[i])
  {
    list := [];
    for i := 0 to |peers|
      invariant Distinct(list) && |list| == Lacking(knowns[..i], h)
      invariant forall p :: p in list ==> p in peers[..i]
      invariant forall j :: 0 <= j < i ==> (peers[j] in list <==> h !in knowns[j])
    {
      var p := peers[i];
      assert p !in peers[..i];
      assert knowns[..i + 1][..i] == knowns[..i];
      if h !in p.known {
        list := list + [p];
      }
    }
    assert knowns[..|peers|] == knowns;
  }

  /** r is annos with h appended to the lists of the given peers. */
  ghost predicate Appended(annos: map<Peer, seq<Hash>>, list: seq<Peer>, h: Hash, r: map<Peer, seq<Hash>>) {
    && r.Keys == annos.Keys + Elements(list)
    && forall p :: p in r ==> r[p] == ListOf(annos, p) + if p in list then [h] else []
  }

  lemma AppendedOneMore(annos: map<Peer, seq<Hash>>, list: seq<Peer>, h: Hash, r: map<Peer, seq<Hash>>, p: Peer)
    requires Appended(annos, list, h, r) && p !in list
    ensures Appended(annos, list + [p], h, r[p := ListOf(r, p) + [h]])
  {
  }

  lemma NextInList(list: seq<Peer>, j: nat)
    requires Distinct(list) && j < |list|
    ensures list[j] !in list[..j] && list[..j + 1] == list[..j] + [list[j]]
  {
  }

  /** Appending h to the lists of the given peers. */
  method AppendToEach(annos: map<Peer, seq<Hash>>, list: seq<Peer>, h: Hash) returns (r: map<Peer, seq<Hash>>)
    requires Distinct(list)
    ensures Appended(annos, list, h, r)
    ensures MapTotal(r) == MapTotal(annos) + |list|
  {
    r := annos;
    for j := 0 to |list|
      invariant Appended(annos, list[..j], h, r)
      invariant MapTotal(r) == MapTotal(annos) + j
    {
      var p := list[j];
      NextInList(list, j);
      MapTotalAppend(r, p, h);
      AppendedOneMore(annos, list[..j], h, r, p);
      r := r[p := ListOf(r, p) + [h]];
    }
    assert list[..|list|] == list;
  }

  /** Each peer's list holds exactly the hashes it lacks; peers lacking nothing have none. */
  ghost predicate ListsExact(annos: map<Peer, seq<Hash>>, peers: seq<Peer>, knowns: seq<set<Hash>>, hashes: seq<Hash>)
    requires |knowns| == |peers|
  {
    && (forall p :: p in annos ==> p in peers && annos[p] != [])
    && (forall i :: 0 <= i < |peers| ==> ListOf(annos, peers[i]) == Unknown(knowns[i], hashes))
  }

  /** How many peers lack some hash of the batch. */
  function Needy(knowns: seq<set<Hash>>, hashes: seq<Hash>): nat {
    if knowns == [] then 0
    else Needy(knowns[..|knowns| - 1], hashes) + if Unknown(knowns[|knowns| - 1], hashes) == [] then 0 else 1
  }

  /** The peers among the first n that have a list. */
  function Listed(annos: map<Peer, seq<Hash>>, peers: seq<Peer>, n: nat): set<Peer>
    requires n <= |peers|
  {
    set p | p in peers[..n] && p in annos
  }

  lemma {:induction false} ListedAreNeedy(annos: map<Peer, seq<Hash>>, peers: seq<Peer>, knowns: seq<set<Hash>>,
                                          hashes: seq<Hash>, n: nat)
    requires Distinct(peers) && |knowns| == |peers| && ListsExact(annos, peers, knowns, hashes) && n <= |peers|
    ensures |Listed(annos, peers, n)| == Needy(knowns[..n], hashes)
    decreases n
  {
    if n > 0 {
      ListedAreNeedy(annos, peers, knowns, hashes, n - 1);
      assert knowns[..n][..n - 1] == knowns[..n - 1];
      OneMoreListed(annos, peers, n - 1);
      assert ListOf(annos, peers[n - 1]) == Unknown(knowns[n - 1], hashes);
    }
  }

  lemma OneMoreListed(annos: map<Peer, seq<Hash>>, peers: seq<Peer>, n: nat)
    requires Distinct(peers) && n < |peers|
    ensures |Listed(annos, peers, n + 1)| == |Listed(annos, peers, n)| + if peers[n] in annos then 1 else 0
  {
    assert peers[..n + 1] == peers[..n] + [peers[n]];
    assert peers[n] !in peers[..n];
    assert Listed(annos, peers, n + 1) == Listed(annos, peers, n) + if peers[n] in annos then {peers[n]} else {};
  }

  /** The map has one entry for each peer that lacks something. */
  lemma OneListEach(annos: map<Peer, seq<Hash>>, peers: seq<Peer>, knowns: seq<set<Hash>>, hashes: seq<Hash>)
    requires Distinct(peers) && |knowns| == |peers| && ListsExact(annos, peers, knowns, hashes)
    ensures |annos| == Needy(knowns, hashes)
  {
    ListedAreNeedy(annos, peers, knowns, hashes, |peers|);
    assert peers[..|peers|] == peers && knowns[..|peers|] == knowns;
    assert Listed(annos, peers, |peers|) == annos.Keys;
  }

  lemma OneMoreHash(annos: map<Peer, seq<Hash>>, annos': map<Peer, seq<Hash>>, peers: seq<Peer>,
                    knowns: seq<set<Hash>>, hashes: seq<Hash>, list: seq<Peer>, h: Hash)
    requires |knowns| == |peers| && ListsExact(annos, peers, knowns, hashes)
    requires forall p :: p in list ==> p in peers
    requires forall i :: 0 <= i < |peers| ==> (peers[i] in list <==> h !in knowns[i])
    requires Appended(annos, list, h, annos')
    ensures ListsExact(annos', peers, knowns, hashes + [h])
  {
    assert (hashes + [h])[..|hashes|] == hashes;
    forall i | 0 <= i < |peers|
      ensures ListOf(annos', peers[i]) == Unknown(knowns[i], hashes + [h])
    {
      assert ListOf(annos, peers[i]) == Unknown(knowns[i], hashes);
    }
  }

  lemma HashesPrefix(txs: seq<Transaction>, i: nat, knowns: seq<set<Hash>>)
    requires i < |txs|
    ensures Hashes(txs[..i + 1]) == Hashes(txs[..i]) + [txs[i].hash]
    ensures CountByTx(knowns, Hashes(txs[..i + 1]))
            == CountByTx(knowns, Hashes(txs[..i])) + Lacking(knowns, txs[i].hash)
  {
    assert Hashes(txs[..i + 1])[..i] == Hashes(txs[..i]);
  }

  /** One transaction: nobody gets it directly, every peer lacking it gets it announced. */
  method AddTransaction(peers: seq<Peer>, ghost knowns: seq<set<Hash>>, ghost hashes: seq<Hash>,
                        txset: map<Peer, seq<Hash>>, annos: map<Peer, seq<Hash>>, h: Hash)
    returns (txset': map<Peer, seq<Hash>>, annos': map<Peer, seq<Hash>>)
    requires Distinct(peers) && knowns == Knowns(peers) && txset == map[]
    requires ListsExact(annos, peers, knowns, hashes)
    ensures txset' == map[] && ListsExact(annos', peers, knowns, hashes + [h])
    ensures MapTotal(annos') == MapTotal(annos) + Lacking(knowns, h)
  {
    var list := PeersWithoutTransaction(peers, knowns, h);
    var numDirect := 0;
    assert list[..numDirect] == [] && list[numDirect..] == list;
    txset' := AppendToEach(txset, list[..numDirect], h);
    annos' := AppendToEach(annos, list[numDirect..], h);
    OneMoreHash(annos, annos', peers, knowns, hashes, list, h);
  }

  /** The announcement map for a whole batch, known-sets unchanged meanwhile. */
  method BuildLists(peers: seq<Peer>, ghost knowns: seq<set<Hash>>, txs: seq<Transaction>)
    returns (txset: map<Peer, seq<Hash>>, annos: map<Peer, seq<Hash>>)
    requires Distinct(peers) && knowns == Knowns(peers)
    ensures txset == map[]
    ensures ListsExact(annos, peers, knowns, Hashes(txs))
    ensures MapTotal(annos) == CountByTx(knowns, Hashes(txs))
  {
    txset, annos := map[], map[];
    for i := 0 to |txs|
      invariant txset == map[]
      invariant ListsExact(annos, peers, knowns, Hashes(txs[..i]))
      invariant MapTotal(annos) == CountByTx(knowns, Hashes(txs[..i]))
    {
      HashesPrefix(txs, i, knowns);
      txset, annos := AddTransaction(peers, knowns, Hashes(txs[..i]), txset, annos, txs[i].hash);
    }
    assert txs[..|txs|] == txs;
  }

  /** Hand every list to its peer, in any order. */
  method SendAll(annos: map<Peer, seq<Hash>>) returns (packs: nat, count: nat)
    requires forall p :: p in annos ==> annos[p] != []
    modifies annos.Keys
    ensures forall p :: p in annos ==> p.State() == Announced(old(p.State()), annos[p])
    ensures packs == |annos| && count == MapTotal(annos)
  {
    packs, count := 0, 0;
    var rest: map<Peer, seq<Hash>> := annos;
    while rest != map[]
      invariant rest.Keys <= annos.Keys && forall p :: p in rest ==> rest[p] == annos[p]
      invariant packs + |rest| == |annos| && count + MapTotal(rest) == MapTotal(annos)
      invariant forall p :: p in annos ==>
                  p.State() == if p in rest then old(p.State()) else Announced(old(p.State()), annos[p])
      decreases |rest|
    {
      assert rest.Keys != {};
      var p :| p in rest;
      MapTotalWithout(rest, p);
      packs := packs + 1;
      count := count + |annos[p]|;
      p.AsyncSendPooledTransactionHashes(annos[p]);
      rest := rest - {p};
    }
  }

  /** Every open peer that lacks something gets one packet, holding exactly the hashes it
      lacked in batch order; nobody else's state changes. The counters agree with it. */
  method BroadcastTransactions(peers: seq<Peer>, txs: seq<Transaction>)
    returns (annoPeers: nat, annoCount: nat, directPeers: nat, directCount: nat)
    requires Distinct(peers)
    modifies peers
    ensures forall i :: 0 <= i < |peers| ==>
              peers[i].State() == Announced(old(peers[i].State()), Unknown(old(peers[i].known), Hashes(txs)))
    ensures annoCount == CountByPeer(old(Knowns(peers)), Hashes(txs))
    ensures annoPeers == Needy(old(Knowns(peers)), Hashes(txs))
    ensures directPeers == 0 && directCount == 0
  {
    ghost var knowns := Knowns(peers);
    var txset: map<Peer, seq<Hash>>, annos: map<Peer, seq<Hash>> := BuildLists(peers, knowns, txs);
    CountsAgree(knowns, Hashes(txs));
    OneListEach(annos, peers, knowns, Hashes(txs));
    assert MapTotal(txset) == 0;
    directPeers, directCount := SendAll(txset);
    annoPeers, annoCount := SendAll(annos);
    assert forall i :: 0 <= i < |peers| ==> knowns[i] == old(peers[i].known);
  }
}
