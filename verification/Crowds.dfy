/** Transactions with as many different hashes in one bucket as any ring can hold. They fill
    a ring on purpose, to show for every capacity which bounds cannot be improved. */
module Crowds {
  import opened Types
  import opened Sequences
  import opened Words
  import opened PoolModel
  import opened Window
  import opened Batches

  /** The hash that ends in the eight bytes of i and is zero elsewhere. */
  function Numbered(i: Uint64): Hash {
    ZERO_HASH[..24] + Fixed(i, 8)
  }

  lemma NumberedDiffer(i: Uint64, j: Uint64)
    ensures Numbered(i) == Numbered(j) ==> i == j
    ensures Bucket(Numbered(i)) == Bucket(Numbered(j))
  {
    EightBytes();
    FixedDenotes(i, 8);
    FixedDenotes(j, 8);
    assert Numbered(i)[24..] == Fixed(i, 8) && Numbered(j)[24..] == Fixed(j, 8);
    assert Numbered(i)[..4] == Numbered(j)[..4];
  }

  /** A transaction with that hash. */
  function Tx(i: Uint64): Transaction {
    Transaction(Numbered(i), Some(ZERO_ADDRESS), [])
  }

  /** The transactions numbered from..from + n. */
  function Row(from: nat, n: nat): (txs: seq<Transaction>)
    requires from + n <= TWO_64
    ensures |txs| == n && forall k :: 0 <= k < n ==> txs[k] == Tx(from + k)
  {
    seq(n, k requires 0 <= k < n => Tx(from + k))
  }

  lemma LastIsNew(txs: seq<Transaction>, tx: Transaction)
    requires Distinct(Hashes(txs + [tx]))
    ensures Distinct(Hashes(txs)) && forall i :: 0 <= i < |txs| ==> txs[i].hash != tx.hash
  {
    assert Hashes(txs + [tx]) == Hashes(txs) + [tx.hash];
    DistinctSnoc(Hashes(txs), tx.hash);
    assert forall i :: 0 <= i < |txs| ==> Hashes(txs)[i] == txs[i].hash;
  }

  /** Hashes that are new to the log and different from each other are all accepted. */
  lemma {:induction false} FreshBatch(c: Caches, cap: Capacity, log: seq<Transaction>, batch: seq<Transaction>)
    requires HashesFollow(c, cap, log)
    requires forall tx :: tx in batch ==> tx.to.Some?
    requires Distinct(Hashes(log + batch))
    ensures Admit(c, cap, batch).out == batch
    ensures HashesFollow(Admit(c, cap, batch).caches, cap, log + batch)
  {
    if batch == [] {
      assert log + batch == log;
    } else {
      var n := |batch| - 1;
      var p, tx := batch[..n], batch[n];
      assert batch == p + [tx] && log + batch == log + p + [tx];
      LastIsNew(log + p, tx);
      FreshBatch(c, cap, log, p);
      NewHashAccepted(Admit(c, cap, p).caches, cap, log + p, tx);
    }
  }

  lemma NewHashAccepted(c: Caches, cap: Capacity, log: seq<Transaction>, tx: Transaction)
    requires HashesFollow(c, cap, log) && forall i :: 0 <= i < |log| ==> log[i].hash != tx.hash
    ensures !Has(c, tx.hash) && HashesFollow(Store(Claim(c, cap, tx.hash), cap, tx), cap, log + [tx])
  {
    var b := Bucket(tx.hash);
    if Has(c, tx.hash) {
      var claims := HashClaims(log, b);
      var i :| 0 <= i < |c.hashes[b]| && c.hashes[b][i].key == tx.hash;
      var at := ClaimedAt(log, b, |claims| - |c.hashes[b]| + i);
      assert false;
    }
    ClaimFollows(c, cap, log, tx);
  }

  /** cap.hash further hashes of its bucket push a hash out of the ring. */
  lemma CrowdedOut(cap: Capacity)
    requires 1 <= cap.hash < TWO_64
    ensures !RecentlyClaimed(cap, Row(0, cap.hash + 1), Numbered(0))
  {
    var log := Row(0, cap.hash + 1);
    forall k | 0 < k < |log| ensures log[k].hash != log[0].hash {
      NumberedDiffer(0, k);
    }
    RowsBetween(cap.hash);
    RowClaims(1, cap.hash);
    SuppressedExactlyInWindow(cap, log, 0);
  }

  lemma RowsBetween(n: nat)
    requires n < TWO_64
    ensures Between(Row(0, n + 1), 0, n + 1) == Row(1, n) && Row(0, n + 1) == [Tx(0)] + Row(1, n)
  {
  }

  lemma SameBucket(i: Uint64)
    ensures Bucket(Tx(i).hash) == Bucket(Numbered(0))
  {
    NumberedDiffer(i, 0);
  }

  lemma {:induction false} AllInBucket(log: seq<Transaction>, b: nat)
    requires forall tx :: tx in log ==> Bucket(tx.hash) == b
    ensures |HashClaims(log, b)| == |log|
    decreases |log|
  {
    if log != [] {
      AllInBucket(log[..|log| - 1], b);
    }
  }

  lemma RowClaims(from: nat, n: nat)
    requires from + n <= TWO_64
    ensures |HashClaims(Row(from, n), Bucket(Numbered(0)))| == n
  {
    forall k | 0 <= k < n ensures Bucket(Row(from, n)[k].hash) == Bucket(Numbered(0)) {
      SameBucket(from + k);
    }
    AllInBucket(Row(from, n), Bucket(Numbered(0)));
  }

  lemma RowIsDistinct(n: nat)
    requires n <= TWO_64
    ensures Distinct(Hashes(Row(0, n)))
  {
    forall i, j | 0 <= i < j < n ensures Hashes(Row(0, n))[i] != Hashes(Row(0, n))[j] {
      NumberedDiffer(i, j);
    }
  }

  /** A batch that returns to its first hash after filling the ring. */
  function Returning(cap: Capacity): seq<Transaction>
    requires cap.hash < TWO_64
  {
    Row(0, cap.hash + 1) + [Tx(0)]
  }

  lemma OneMoreAccepted(c: Caches, cap: Capacity, batch: seq<Transaction>, tx: Transaction)
    requires c.Shaped() && tx.to.Some? && !Has(Admit(c, cap, batch).caches, tx.hash)
    ensures Admit(c, cap, batch + [tx]).out == Admit(c, cap, batch).out + [tx]
  {
    assert (batch + [tx])[..|batch|] == batch;
  }

  lemma RowAccepted(c: Caches, cap: Capacity, n: nat)
    requires n <= TWO_64 && HashesFollow(c, cap, [])
    ensures Admit(c, cap, Row(0, n)).out == Row(0, n)
    ensures HashesFollow(Admit(c, cap, Row(0, n)).caches, cap, Row(0, n))
  {
    RowIsDistinct(n);
    assert [] + Row(0, n) == Row(0, n);
    FreshBatch(c, cap, [], Row(0, n));
  }

  /** An uninterrupted batch of cap.hash + 2 can be accepted whole although its first and
      last hash are the same. */
  lemma ReturningAccepted(c: Caches, cap: Capacity)
    requires cap.Valid() && cap.hash < TWO_64 && HashesFollow(c, cap, [])
    ensures Admit(c, cap, Returning(cap)).out == Returning(cap)
  {
    var first := Row(0, cap.hash + 1);
    RowAccepted(c, cap, cap.hash + 1);
    FirstForgotten(cap, Admit(c, cap, first).caches);
    OneMoreAccepted(c, cap, first, Tx(0));
  }

  lemma FirstForgotten(cap: Capacity, c: Caches)
    requires 1 <= cap.hash < TWO_64 && HashesFollow(c, cap, Row(0, cap.hash + 1))
    ensures !Has(c, Numbered(0))
  {
    CrowdedOut(cap);
  }

  /** The bound on serialised batches is the best possible, for every capacity: one more
      transaction and a batch can publish a hash twice. */
  lemma LongerBatchRepeats(cap: Capacity)
    requires cap.Valid() && cap.hash < TWO_64
    ensures exists batch: seq<Transaction> ::
              |batch| == cap.hash + 2 && !Distinct(Hashes(Admit(EmptyCaches(), cap, batch).out))
  {
    var batch := Returning(cap);
    EmptyFollows(cap);
    ReturningAccepted(EmptyCaches(), cap);
    assert Hashes(batch)[0] == Hashes(batch)[cap.hash + 1];
    assert |batch| == cap.hash + 2 && !Distinct(Hashes(Admit(EmptyCaches(), cap, batch).out));
  }
}
