/** The transaction pool object: two arrays of ring caches updated in place by AddRemotes,
    proved against PoolModel. */
module TxPool {
  import opened Types
  import opened Sequences
  import opened Ring
  import opened PoolModel
  import opened Window

  /** Capacity of one ring when a total is divided over the buckets, never below one. */
  function PerBucket(total: int): nat {
    if total < BUCKETS then 1 else total / BUCKETS
  }

  /** One ring's share of a total capacity: the 32 rings together hold no more than the
      total, and one more each would be too much; but never less than one. */
  ghost predicate IsShare(cap: nat, total: int) {
    if total < 32 then cap == 1 else 32 * cap <= total < 32 * (cap + 1)
  }

  lemma PerBucketIs(total: int)
    ensures IsShare(PerBucket(total), total)
  {
  }

  /** The constructor's guard survives the division. */
  lemma GuardSurvivesDivision(hashCap: int, txCap: int)
    requires txCap <= hashCap
    ensures Capacity(PerBucket(hashCap), PerBucket(txCap)).Valid()
  {
  }

  /** The rings of a new cache, and the memory they own. */
  method MakeRings<K(==, !new, 0), V(0)>(cap: nat) returns (made: seq<RoundRobin<K, V>>, ghost owned: set<object>)
    requires 1 <= cap
    ensures |made| == BUCKETS && fresh(owned)
    ensures forall i :: 0 <= i < |made| ==>
              && made[i] in owned && made[i].slots in owned && made[i].Valid()
              && made[i].slots.Length == cap && made[i].Contents() == []
    ensures forall i, j :: 0 <= i < j < |made| ==> made[i] != made[j] && made[i].slots != made[j].slots
  {
    made, owned := [], {};
    while |made| < BUCKETS
      invariant |made| <= BUCKETS && fresh(owned)
      invariant forall i :: 0 <= i < |made| ==>
                  && made[i] in owned && made[i].slots in owned && made[i].Valid()
                  && made[i].slots.Length == cap && made[i].Contents() == []
      invariant forall i, j :: 0 <= i < j < |made| ==> made[i] != made[j] && made[i].slots != made[j].slots
    {
      var ring := new RoundRobin<K, V>(cap);
      made := made + [ring];
      owned := owned + {ring, ring.slots};
    }
  }

  /** One cache: a ring per bucket, none sharing memory with another. */
  class Buckets<K(==, !new, 0), V(0)> {
    const rings: seq<RoundRobin<K, V>>
    const cap: nat
    ghost const Repr: set<object>
    ghost var contents: seq<seq<Entry<K, V>>>

    ghost predicate Valid()
      reads this, Repr
    {
      && this !in Repr
      && |rings| == |contents| == BUCKETS
      && (forall i :: 0 <= i < BUCKETS ==> rings[i] in Repr && rings[i].slots in Repr && Holds(i))
      && (forall i, j :: 0 <= i < j < BUCKETS ==> rings[i] != rings[j] && rings[i].slots != rings[j].slots)
    }

    ghost predicate Holds(i: nat)
      requires i < |rings| && i < |contents|
      reads this, rings[i], rings[i].slots
    {
      rings[i].Valid() && rings[i].slots.Length == cap && rings[i].Contents() == contents[i]
    }

    constructor (cap: nat)
      requires 1 <= cap
      ensures Valid() && fresh(Repr) && this.cap == cap
      ensures contents == seq(BUCKETS, _ => [])
    {
      var made: seq<RoundRobin<K, V>>;
      ghost var owned: set<object>;
      made, owned := MakeRings(cap);
      rings := made;
      this.cap := cap;
      Repr := owned;
      contents := seq(BUCKETS, _ => []);
    }

    method Set(b: nat, k: K, v: V) returns (isNew: bool)
      requires Valid() && b < BUCKETS
      modifies this, Repr
      ensures Valid()
      ensures isNew == !HasKey(old(contents)[b], k)
      ensures contents == old(contents)[b := Put(old(contents)[b], cap, k, v)]
    {
      assert Holds(b);
      isNew := rings[b].Set(k, v);
      contents := contents[b := Put(contents[b], cap, k, v)];
      forall i | 0 <= i < BUCKETS ensures Holds(i) {
        assert old(Holds(i));
        if i != b {
          assert rings[i] != rings[b] && rings[i].slots != rings[b].slots;
        }
      }
    }

    method Get(b: nat, k: K) returns (r: Option<V>)
      requires Valid() && b < BUCKETS
      ensures r.Some? <==> HasKey(contents[b], k)
      ensures r.Some? ==> Entry(k, r.value) in contents[b]
    {
      assert Holds(b);
      r := rings[b].Get(k);
    }
  }

  /** The caches are the newest claims, no claim was a duplicate when it was made, and the
      events hold exactly the claims. */
  ghost predicate IsHistory(c: Caches, cap: Capacity, claims: seq<Transaction>, events: seq<seq<Transaction>>) {
    && cap.Valid() && HashesFollow(c, cap, claims) && TxsFollow(c, cap, claims)
    && Suppressed(cap, claims) && claims == Flatten(events)
  }

  lemma BatchKeepsHistory(c: Caches, cap: Capacity, claims: seq<Transaction>, events: seq<seq<Transaction>>,
                          txs: seq<Transaction>)
    requires IsHistory(c, cap, claims, events)
    ensures var a := Admit(c, cap, txs);
            && IsHistory(a.caches, cap, claims + a.out, events + if a.out == [] then [] else [a.out])
            && ErrorsExplained(cap, claims, txs, a.errs) && a.out == Accepted(txs, a.errs)
  {
    AdmitFollowsHistory(c, cap, claims, txs);
    AdmitKeepsSuppressed(c, cap, claims, txs);
    AdmitExplained(c, cap, claims, txs);
    FlattenSnoc(events, Admit(c, cap, txs).out);
    assert events + [] == events && claims + [] == claims;
  }

  class TxPool {
    const hashCache: Buckets<Hash, ()>
    const txCache: Buckets<Hash, Transaction>
    /** Every NewTxsEvent sent so far. */
    var events: seq<seq<Transaction>>
    /** Every transaction accepted so far, in order. */
    ghost var claims: seq<Transaction>

    ghost function Repr(): set<object> {
      hashCache.Repr + txCache.Repr + {hashCache, txCache}
    }

    ghost predicate WellFormed()
      reads Repr()
    {
      && hashCache.Valid() && txCache.Valid()
      && hashCache.Repr !! txCache.Repr
      && hashCache as object != txCache && hashCache !in txCache.Repr && txCache !in hashCache.Repr
    }

    ghost function Capacities(): Capacity {
      Capacity(hashCache.cap, txCache.cap)
    }

    ghost function Model(): (c: Caches)
      requires WellFormed()
      reads Repr()
      ensures c.Shaped()
    {
      Caches(hashCache.contents, txCache.contents)
    }

    ghost predicate Valid()
      reads this, Repr()
    {
      this !in Repr() && WellFormed() && IsHistory(Model(), Capacities(), claims, events)
    }

    constructor (hashCap: int, txCap: int)
      requires txCap <= hashCap
      ensures Valid() && Model() == EmptyCaches() && events == []
      ensures Capacities() == Capacity(PerBucket(hashCap), PerBucket(txCap))
      ensures fresh(Repr())
    {
      GuardSurvivesDivision(hashCap, txCap);
      hashCache := new Buckets<Hash, ()>(PerBucket(hashCap));
      txCache := new Buckets<Hash, Transaction>(PerBucket(txCap));
      events := [];
      claims := [];
      new;
      EmptyFollows(Capacities());
    }

    method Has(h: Hash) returns (r: bool)
      requires Valid()
      ensures r == PoolModel.Has(Model(), h)
      ensures r == RecentlyClaimed(Capacities(), claims, h)
      ensures r <==> exists i: nat :: ClaimedWithin(claims, h, hashCache.cap, i)
    {
      RecentlyClaimedIff(Capacities(), claims, h);
      var found := hashCache.Get(Bucket(h), h);
      r := found.Some?;
    }

    /** What Get returns has the asked hash, was accepted once, and is also reported by Has. */
    method Get(h: Hash) returns (r: Option<Transaction>)
      requires Valid()
      ensures r.Some? <==> HasTx(Model(), h)
      ensures r.Some? <==> exists i: nat :: ClaimedWithin(claims, h, txCache.cap, i)
      ensures r.Some? ==> exists i: nat :: ClaimedWithin(claims, h, txCache.cap, i) && claims[i] == r.value
      ensures r.Some? ==> r.value.hash == h && r.value in claims && PoolModel.Has(Model(), h)
    {
      CachedIff(Model(), Capacities(), claims, h);
      r := txCache.Get(Bucket(h), h);
      if r.Some? {
        CachedTransaction(Model(), Capacities(), claims, h, r.value);
        ghost var i := CachedAt(Model(), Capacities(), claims, h, r.value);
      }
    }

    /** Lines 81 to 101: one result per transaction, and the accepted ones. */
    method AdmitEach(txs: seq<Transaction>) returns (errs: seq<Option<AddError>>, out: seq<Transaction>)
      requires WellFormed()
      modifies Repr()
      ensures WellFormed() && Admission(Model(), errs, out) == Admit(old(Model()), Capacities(), txs)
    {
      ghost var start := Model();
      errs := [];
      out := [];
      for i := 0 to |txs|
        invariant WellFormed()
        invariant Admission(Model(), errs, out) == Admit(start, Capacities(), txs[..i])
      {
        var tx := txs[i];
        AdmitPrefix(start, Capacities(), txs, i);
        if tx.to.None? {
          errs := errs + [Some(IsCreateContract)];
          continue;
        }
        var isNew := hashCache.Set(Bucket(tx.hash), tx.hash, ());
        if isNew {
          out := out + [tx];
          errs := errs + [None];
          var _ := txCache.Set(Bucket(tx.hash), tx.hash, tx);
        } else {
          errs := errs + [Some(AlreadyKnown)];
        }
      }
      assert txs[..|txs|] == txs;
    }

    /** Each result is explained by the claims made before it, the accepted transactions are
        exactly those without error, and one event carries them unless there are none. */
    method AddRemotes(txs: seq<Transaction>) returns (errs: seq<Option<AddError>>)
      requires Valid()
      modifies this`events, this`claims, Repr()
      ensures Valid()
      ensures Model() == Admit(old(Model()), Capacities(), txs).caches
      ensures ErrorsExplained(Capacities(), old(claims), txs, errs)
      ensures claims == old(claims) + Accepted(txs, errs)
      ensures events == old(events) + if Accepted(txs, errs) == [] then [] else [Accepted(txs, errs)]
    {
      ghost var start := Model();
      var out: seq<Transaction>;
      errs, out := AdmitEach(txs);
      BatchKeepsHistory(start, Capacities(), claims, events, txs);
      if |out| > 0 {
        Send(out);
      } else {
        assert claims + out == claims && events + [] == events;
      }
    }

    /** One more event; the caches are not involved. */
    method Send(out: seq<Transaction>)
      requires this !in Repr() && WellFormed()
      modifies this`events, this`claims
      ensures WellFormed() && Model() == old(Model())
      ensures events == old(events) + [out] && claims == old(claims) + out
    {
      events := events + [out];
      claims := claims + out;
    }
  }

  /** NewTxPool panics exactly when the hash capacity is below the transaction capacity. */
  method NewTxPool(hashCap: int, txCap: int) returns (pool: TxPool?)
    ensures pool == null <==> hashCap < txCap
    ensures pool != null ==> pool.Valid() && pool.Model() == EmptyCaches() && pool.events == [] && pool.claims == []
    ensures pool != null ==> IsShare(pool.hashCache.cap, hashCap) && IsShare(pool.txCache.cap, txCap)
  {
    if hashCap < txCap {
      return null;
    }
    PerBucketIs(hashCap);
    PerBucketIs(txCap);
    pool := new TxPool(hashCap, txCap);
  }
}
