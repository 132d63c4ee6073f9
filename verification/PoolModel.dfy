/** Transaction admission on values: the two bucketed caches, one claim, one store, and a
    whole batch. The class in TxPool.dfy and the concurrent machine in Admission.dfy both
    use these definitions. */
module PoolModel {
  import opened Types
  import opened Sequences
  import opened Ring

  const BUCKETS := 32

  /** The bucket a hash falls in: its first four bytes, big-endian, modulo the bucket count. */
  function Bucket(h: Hash): (b: nat)
    ensures b < BUCKETS
  {
    BigEndian(h[..4]) % BUCKETS
  }

  /** Hashes that share a bucket: the first three bytes weigh multiples of 32, so only the
      fourth decides. */
  predicate Alike(g: Hash, h: Hash) {
    g[3] % 32 == h[3] % 32
  }

  lemma MultipleOf32(x: nat, y: nat)
    ensures (x * 256 + y) % 32 == y % 32
  {
    assert x * 256 + y == 32 * (8 * x) + y;
  }

  lemma BucketIsFourthByte(h: Hash)
    ensures Bucket(h) == h[3] % 32
  {
    assert h[..4][..3] == h[..3];
    MultipleOf32(BigEndian(h[..3]), h[3]);
  }

  lemma SameBucketIff(g: Hash, h: Hash)
    ensures Bucket(g) == Bucket(h) <==> Alike(g, h)
  {
    BucketIsFourthByte(g);
    BucketIsFourthByte(h);
  }

  type HashRing = seq<Entry<Hash, ()>>
  type TxRing = seq<Entry<Hash, Transaction>>

  datatype Caches = Caches(hashes: seq<HashRing>, txs: seq<TxRing>) {
    ghost predicate Shaped() {
      |hashes| == BUCKETS && |txs| == BUCKETS
    }
  }

  /** Ring capacities of one bucket of each cache. */
  datatype Capacity = Capacity(hash: nat, tx: nat) {
    ghost predicate Valid() {
      1 <= tx <= hash
    }
  }

  function EmptyCaches(): (c: Caches)
    ensures c.Shaped()
  {
    Caches(seq(BUCKETS, _ => []), seq(BUCKETS, _ => []))
  }

  predicate Has(c: Caches, h: Hash)
    requires c.Shaped()
  {
    HasKey(c.hashes[Bucket(h)], h)
  }

  predicate HasTx(c: Caches, h: Hash)
    requires c.Shaped()
  {
    HasKey(c.txs[Bucket(h)], h)
  }

  function Claim(c: Caches, cap: Capacity, h: Hash): (c': Caches)
    requires c.Shaped()
    ensures c'.Shaped()
  {
    var b := Bucket(h);
    c.(hashes := c.hashes[b := Put(c.hashes[b], cap.hash, h, ())])
  }

  function Store(c: Caches, cap: Capacity, tx: Transaction): (c': Caches)
    requires c.Shaped()
    ensures c'.Shaped()
  {
    var b := Bucket(tx.hash);
    c.(txs := c.txs[b := Put(c.txs[b], cap.tx, tx.hash, tx)])
  }

  datatype AddError = IsCreateContract | AlreadyKnown

  /** What AddRemotes leaves behind after a batch. */
  datatype Admission = Admission(caches: Caches, errs: seq<Option<AddError>>, out: seq<Transaction>)

  function AdmitOne(a: Admission, cap: Capacity, tx: Transaction): (r: Admission)
    requires a.caches.Shaped()
    ensures r.caches.Shaped()
  {
    if tx.to.None? then
      a.(errs := a.errs + [Some(IsCreateContract)])
    else if Has(a.caches, tx.hash) then
      a.(errs := a.errs + [Some(AlreadyKnown)])
    else
      Admission(Store(Claim(a.caches, cap, tx.hash), cap, tx), a.errs + [None], a.out + [tx])
  }

  function Admit(c: Caches, cap: Capacity, batch: seq<Transaction>): (r: Admission)
    requires c.Shaped()
    ensures r.caches.Shaped()
  {
    if batch == [] then Admission(c, [], [])
    else AdmitOne(Admit(c, cap, batch[..|batch| - 1]), cap, batch[|batch| - 1])
  }

  lemma AdmitPrefix(c: Caches, cap: Capacity, txs: seq<Transaction>, i: nat)
    requires c.Shaped() && i < |txs|
    ensures Admit(c, cap, txs[..i + 1]) == AdmitOne(Admit(c, cap, txs[..i]), cap, txs[i])
  {
    assert txs[..i + 1][..i] == txs[..i];
  }

  /** The transactions of a batch whose error is nil, in batch order. */
  function Accepted(batch: seq<Transaction>, errs: seq<Option<AddError>>): seq<Transaction>
    requires |errs| <= |batch|
  {
    if errs == [] then []
    else
      var n := |errs| - 1;
      Accepted(batch, errs[..n]) + if errs[n].None? then [batch[n]] else []
  }

  lemma {:induction false} AcceptedSnoc(batch: seq<Transaction>, errs: seq<Option<AddError>>, e: Option<AddError>)
    requires |errs| < |batch|
    ensures Accepted(batch, errs + [e]) == Accepted(batch, errs) + if e.None? then [batch[|errs|]] else []
  {
    assert (errs + [e])[..|errs|] == errs;
  }

  lemma {:induction false} AcceptedPrefix(batch: seq<Transaction>, tx: Transaction, errs: seq<Option<AddError>>)
    requires |errs| <= |batch|
    ensures Accepted(batch + [tx], errs) == Accepted(batch, errs)
  {
    if errs != [] {
      AcceptedPrefix(batch, tx, errs[..|errs| - 1]);
    }
  }

  // ----- The claim history -----

  /** The claims of one bucket, in claim order, as hash-ring entries. */
  function HashClaims(log: seq<Transaction>, b: nat): HashRing {
    if log == [] then []
    else
      var tx := log[|log| - 1];
      HashClaims(log[..|log| - 1], b) + if Bucket(tx.hash) == b then [Entry(tx.hash, ())] else []
  }

  /** The same claims as transaction-ring entries. */
  function TxClaims(log: seq<Transaction>, b: nat): TxRing {
    if log == [] then []
    else
      var tx := log[|log| - 1];
      TxClaims(log[..|log| - 1], b) + if Bucket(tx.hash) == b then [Entry(tx.hash, tx)] else []
  }

  lemma {:induction false} ClaimsAlign(log: seq<Transaction>, b: nat)
    ensures |HashClaims(log, b)| == |TxClaims(log, b)|
    ensures forall i :: 0 <= i < |TxClaims(log, b)| ==>
              && HashClaims(log, b)[i].key == TxClaims(log, b)[i].key == TxClaims(log, b)[i].value.hash
              && Bucket(TxClaims(log, b)[i].key) == b
              && TxClaims(log, b)[i].value in log
  {
    if log != [] {
      ClaimsAlign(log[..|log| - 1], b);
    }
  }

  /** Each hash ring is the last cap.hash claims of its bucket. */
  ghost predicate HashesFollow(c: Caches, cap: Capacity, log: seq<Transaction>) {
    c.Shaped() && forall b :: 0 <= b < BUCKETS ==> c.hashes[b] == Last(HashClaims(log, b), cap.hash)
  }

  /** Each transaction ring is the last cap.tx claims of its bucket. */
  ghost predicate TxsFollow(c: Caches, cap: Capacity, log: seq<Transaction>) {
    c.Shaped() && forall b :: 0 <= b < BUCKETS ==> c.txs[b] == Last(TxClaims(log, b), cap.tx)
  }

  lemma EmptyFollows(cap: Capacity)
    ensures HashesFollow(EmptyCaches(), cap, []) && TxsFollow(EmptyCaches(), cap, [])
  {
  }

  lemma ClaimFollows(c: Caches, cap: Capacity, log: seq<Transaction>, tx: Transaction)
    requires HashesFollow(c, cap, log) && !Has(c, tx.hash)
    ensures HashesFollow(Claim(c, cap, tx.hash), cap, log + [tx])
  {
    assert (log + [tx])[..|log|] == log;
    LastOfLast(HashClaims(log, Bucket(tx.hash)), Entry(tx.hash, ()), cap.hash);
  }

  /** A claim of a fresh hash cannot meet its own transaction in the smaller ring, so the
      store always appends. This is where cap.tx <= cap.hash is needed. */
  lemma StoreFollows(c: Caches, cap: Capacity, log: seq<Transaction>, tx: Transaction)
    requires cap.Valid() && HashesFollow(c, cap, log) && TxsFollow(c, cap, log) && !Has(c, tx.hash)
    ensures TxsFollow(Store(c, cap, tx), cap, log + [tx])
  {
    var b := Bucket(tx.hash);
    RingsNest(c, cap, log, tx.hash);
    assert (log + [tx])[..|log|] == log;
    LastOfLast(TxClaims(log, b), Entry(tx.hash, tx), cap.tx);
  }

  /** A cached transaction has a cached hash. */
  lemma RingsNest(c: Caches, cap: Capacity, log: seq<Transaction>, h: Hash)
    requires cap.Valid() && HashesFollow(c, cap, log) && TxsFollow(c, cap, log)
    ensures HasTx(c, h) ==> Has(c, h)
    ensures forall i :: 0 <= i < |c.txs[Bucket(h)]| ==> c.txs[Bucket(h)][i].value.hash == c.txs[Bucket(h)][i].key
  {
    var b := Bucket(h);
    ClaimsAlign(log, b);
    LastKeysNest(HashClaims(log, b), TxClaims(log, b), cap, h);
  }

  /** Among the last claims of one bucket, what the smaller ring keeps the larger one keeps. */
  lemma LastKeysNest(hs: HashRing, ts: TxRing, cap: Capacity, h: Hash)
    requires cap.Valid() && |hs| == |ts|
    requires forall i :: 0 <= i < |ts| ==> hs[i].key == ts[i].key == ts[i].value.hash
    ensures forall i :: 0 <= i < |Last(ts, cap.tx)| ==> Last(ts, cap.tx)[i].value.hash == Last(ts, cap.tx)[i].key
    ensures HasKey(Last(ts, cap.tx), h) ==> HasKey(Last(hs, cap.hash), h)
  {
    var ring, larger := Last(ts, cap.tx), Last(hs, cap.hash);
    if HasKey(ring, h) {
      var i :| 0 <= i < |ring| && ring[i].key == h;
      assert ring[i] == ts[i + |ts| - |ring|];
      assert larger[i + |larger| - |ring|].key == h;
    }
  }

  /** Cache equals history over one batch: both caches go on being the newest claims of
      the one log, which grows by exactly the accepted transactions. */
  lemma {:induction false} AdmitFollowsHistory(c: Caches, cap: Capacity, log: seq<Transaction>, batch: seq<Transaction>)
    requires cap.Valid() && HashesFollow(c, cap, log) && TxsFollow(c, cap, log)
    ensures var r := Admit(c, cap, batch);
            HashesFollow(r.caches, cap, log + r.out) && TxsFollow(r.caches, cap, log + r.out)
  {
    if batch == [] {
      assert log + [] == log;
    } else {
      var tx := batch[|batch| - 1];
      var a := Admit(c, cap, batch[..|batch| - 1]);
      AdmitFollowsHistory(c, cap, log, batch[..|batch| - 1]);
      if tx.to.Some? && !Has(a.caches, tx.hash) {
        ClaimFollows(a.caches, cap, log + a.out, tx);
        StoreFollows(a.caches, cap, log + a.out, tx);
        assert Store(Claim(a.caches, cap, tx.hash), cap, tx).txs == Store(a.caches, cap, tx).txs;
        assert log + (a.out + [tx]) == log + a.out + [tx];
      }
    }
  }

  /** `errs` is aligned with the batch, `out` is the in-order subsequence without error,
      and each error says exactly what it should: no recipient, or a hash still among the
      last cap.hash claims of its bucket when its turn came. */
  ghost predicate ErrorsExplained(cap: Capacity, log: seq<Transaction>, batch: seq<Transaction>,
                                  errs: seq<Option<AddError>>) {
    && |errs| == |batch|
    && forall i :: 0 <= i < |errs| ==>
         && (errs[i] == Some(IsCreateContract) <==> batch[i].to.None?)
         && (errs[i] == Some(AlreadyKnown) <==>
               batch[i].to.Some? && RecentlyClaimed(cap, log + Accepted(batch, errs[..i]), batch[i].hash))
  }

  ghost predicate RecentlyClaimed(cap: Capacity, log: seq<Transaction>, h: Hash) {
    HasKey(Last(HashClaims(log, Bucket(h)), cap.hash), h)
  }

  lemma ExplainedOneMore(cap: Capacity, log: seq<Transaction>, batch: seq<Transaction>, errs: seq<Option<AddError>>,
                         tx: Transaction, e: Option<AddError>)
    requires ErrorsExplained(cap, log, batch, errs)
    requires e == Some(IsCreateContract) <==> tx.to.None?
    requires e == Some(AlreadyKnown) <==> tx.to.Some? && RecentlyClaimed(cap, log + Accepted(batch, errs), tx.hash)
    ensures ErrorsExplained(cap, log, batch + [tx], errs + [e])
    ensures Accepted(batch + [tx], errs + [e]) == Accepted(batch, errs) + if e.None? then [tx] else []
  {
    var all := errs + [e];
    AcceptedSnoc(batch + [tx], errs, e);
    AcceptedPrefix(batch, tx, errs);
    forall i | 0 <= i < |all|
      ensures Accepted(batch + [tx], all[..i]) == Accepted(batch, errs[..i])
    {
      assert all[..i] == errs[..i];
      AcceptedPrefix(batch, tx, errs[..i]);
    }
    assert errs[..|errs|] == errs;
  }

  lemma {:induction false} AdmitExplained(c: Caches, cap: Capacity, log: seq<Transaction>, batch: seq<Transaction>)
    requires cap.Valid() && HashesFollow(c, cap, log) && TxsFollow(c, cap, log)
    ensures var r := Admit(c, cap, batch);
            ErrorsExplained(cap, log, batch, r.errs) && r.out == Accepted(batch, r.errs)
  {
    if batch != [] {
      var n := |batch| - 1;
      var p, tx := batch[..n], batch[n];
      var a, r := Admit(c, cap, p), Admit(c, cap, batch);
      assert batch == p + [tx];
      AdmitExplained(c, cap, log, p);
      AdmitFollowsHistory(c, cap, log, p);
      ExplainedOneMore(cap, log, p, a.errs, tx, r.errs[n]);
      assert r.errs == a.errs + [r.errs[n]];
    }
  }

  // ----- Whole runs of serialised batches -----

  /** The caches and the claim log after a sequence of AddRemotes calls on a new pool. */
  function AdmitAll(cap: Capacity, batches: seq<seq<Transaction>>): (r: (Caches, seq<Transaction>))
    ensures r.0.Shaped()
  {
    if batches == [] then (EmptyCaches(), [])
    else
      var before := AdmitAll(cap, batches[..|batches| - 1]);
      var a := Admit(before.0, cap, batches[|batches| - 1]);
      (a.caches, before.1 + a.out)
  }

  /** Each batch is admitted on top of what those before it left. */
  lemma OneMoreBatch(cap: Capacity, batches: seq<seq<Transaction>>, batch: seq<Transaction>)
    ensures AdmitAll(cap, []) == (EmptyCaches(), [])
    ensures var (c, log) := AdmitAll(cap, batches);
            AdmitAll(cap, batches + [batch]) == (Admit(c, cap, batch).caches, log + Admit(c, cap, batch).out)
  {
    assert (batches + [batch])[..|batches|] == batches;
  }

  lemma {:induction false} CacheEqualsHistory(cap: Capacity, batches: seq<seq<Transaction>>)
    requires cap.Valid()
    ensures var (c, log) := AdmitAll(cap, batches); HashesFollow(c, cap, log) && TxsFollow(c, cap, log)
  {
    if batches == [] {
      EmptyFollows(cap);
    } else {
      var before := AdmitAll(cap, batches[..|batches| - 1]);
      CacheEqualsHistory(cap, batches[..|batches| - 1]);
      AdmitFollowsHistory(before.0, cap, before.1, batches[|batches| - 1]);
    }
  }

  /** A cached transaction carries the key's hash, was claimed, and its hash is cached too. */
  lemma CachedTransaction(c: Caches, cap: Capacity, log: seq<Transaction>, h: Hash, tx: Transaction)
    requires cap.Valid() && HashesFollow(c, cap, log) && TxsFollow(c, cap, log)
    requires Entry(h, tx) in c.txs[Bucket(h)]
    ensures tx.hash == h && tx in log && Has(c, h)
  {
    RingsNest(c, cap, log, h);
    ClaimsAlign(log, Bucket(h));
    var i :| 0 <= i < |c.txs[Bucket(h)]| && c.txs[Bucket(h)][i] == Entry(h, tx);
    assert c.txs[Bucket(h)][i].key == h;
  }

  /** After any serialised run, whatever Get returns carries the asked hash, was claimed
      at some point, and is also reported by Has. */
  lemma GetImpliesHas(cap: Capacity, batches: seq<seq<Transaction>>, h: Hash, tx: Transaction)
    requires cap.Valid()
    requires Entry(h, tx) in AdmitAll(cap, batches).0.txs[Bucket(h)]
    ensures Has(AdmitAll(cap, batches).0, h) && tx.hash == h && tx in AdmitAll(cap, batches).1
  {
    CacheEqualsHistory(cap, batches);
    CachedTransaction(AdmitAll(cap, batches).0, cap, AdmitAll(cap, batches).1, h, tx);
  }
}
