/** The duplicate-suppression window, as a property of a claim log. It is proved once here
    and used for serialised batches and for concurrent calls alike. */
module Window {
  import opened Types
  import opened Sequences
  import opened Ring
  import opened PoolModel
  import opened Batches

  /** Every claim in the log was made while its hash was not cached. */
  ghost predicate Suppressed(cap: Capacity, log: seq<Transaction>) {
    forall j :: 0 <= j < |log| ==> !RecentlyClaimed(cap, log[..j], log[j].hash)
  }

  lemma SuppressedSnoc(cap: Capacity, log: seq<Transaction>, tx: Transaction)
    requires Suppressed(cap, log) && !RecentlyClaimed(cap, log, tx.hash)
    ensures Suppressed(cap, log + [tx])
  {
    forall j | 0 <= j < |log + [tx]|
      ensures !RecentlyClaimed(cap, (log + [tx])[..j], (log + [tx])[j].hash)
    {
      assert (log + [tx])[..j] == log[..j];
      if j == |log| {
        assert log[..j] == log;
      }
    }
  }

  lemma SuppressedPrefix(cap: Capacity, log: seq<Transaction>, n: nat)
    requires Suppressed(cap, log) && n <= |log|
    ensures Suppressed(cap, log[..n])
  {
    assert forall k :: 0 <= k < n ==> log[..n][..k] == log[..k];
  }

  lemma {:induction false} ClaimsAppend(x: seq<Transaction>, y: seq<Transaction>, b: nat)
    ensures HashClaims(x + y, b) == HashClaims(x, b) + HashClaims(y, b)
  {
    if y == [] {
      assert x + y == x;
    } else {
      assert (x + y)[..|x + y| - 1] == x + y[..|y| - 1];
      ClaimsAppend(x, y[..|y| - 1], b);
    }
  }

  /** The position in the log that a ring entry was claimed at. */
  lemma {:induction false} ClaimedAt(log: seq<Transaction>, b: nat, i: nat) returns (k: nat)
    requires i < |HashClaims(log, b)|
    ensures k < |log| && log[k].hash == HashClaims(log, b)[i].key && Bucket(log[k].hash) == b
    ensures i == |HashClaims(log[..k], b)|
    decreases |log|
  {
    k := |log| - 1;
    if i < |HashClaims(log[..k], b)| {
      var n := k;
      k := ClaimedAt(log[..n], b, i);
      assert log[..n][..k] == log[..k];
    }
  }

  /** The claims made after position i in the same bucket. */
  function LaterAlike(log: seq<Transaction>, i: nat): set<nat>
    requires i < |log|
  {
    set k | i < k < |log| && Alike(log[k].hash, log[i].hash)
  }

  lemma LaterOneMore(log: seq<Transaction>, i: nat)
    requires i < |log| - 1
    ensures var m := |log| - 1;
            |LaterAlike(log, i)| == |LaterAlike(log[..m], i)| + if Alike(log[m].hash, log[i].hash) then 1 else 0
  {
    var m := |log| - 1;
    assert LaterAlike(log, i) == LaterAlike(log[..m], i) + if Alike(log[m].hash, log[i].hash) then {m} else {};
  }

  /** Where the claim at position i stands among the claims of its bucket. */
  lemma {:induction false} PlaceOf(log: seq<Transaction>, i: nat, b: nat)
    requires i < |log| && b == Bucket(log[i].hash)
    ensures |HashClaims(log, b)| == |HashClaims(log[..i], b)| + 1 + |LaterAlike(log, i)|
    ensures HashClaims(log, b)[|HashClaims(log[..i], b)|] == Entry(log[i].hash, ())
    decreases |log|
  {
    var m := |log| - 1;
    if i < m {
      PlaceOf(log[..m], i, b);
      assert log[..m][..i] == log[..i];
      SameBucketIff(log[m].hash, log[i].hash);
      LaterOneMore(log, i);
    } else {
      assert LaterAlike(log, i) == {};
    }
  }

  lemma {:induction false} TxPlaceOf(log: seq<Transaction>, i: nat, b: nat)
    requires i < |log| && b == Bucket(log[i].hash)
    ensures |HashClaims(log[..i], b)| < |TxClaims(log, b)|
    ensures TxClaims(log, b)[|HashClaims(log[..i], b)|] == Entry(log[i].hash, log[i])
    decreases |log|
  {
    var m := |log| - 1;
    if i < m {
      TxPlaceOf(log[..m], i, b);
      assert log[..m][..i] == log[..i];
    } else {
      ClaimsAlign(log[..m], b);
    }
  }

  /** h was claimed at position i, and fewer than n claims of its bucket came later. */
  ghost predicate ClaimedWithin(log: seq<Transaction>, h: Hash, n: nat, i: nat) {
    i < |log| && log[i].hash == h && |LaterAlike(log, i)| < n
  }

  lemma InLast(s: HashRing, n: nat, h: Hash)
    ensures HasKey(Last(s, n), h) <==> exists x :: 0 <= x < |s| && |s| - x <= n && s[x].key == h
  {
    var last := Last(s, n);
    assert forall x :: 0 <= x < |last| ==> last[x] == s[x + |s| - |last|];
    if x :| 0 <= x < |s| && |s| - x <= n && s[x].key == h {
      assert last[x - (|s| - |last|)].key == h;
    }
  }

  lemma AmongLast(log: seq<Transaction>, h: Hash, n: nat)
    ensures HasKey(Last(HashClaims(log, Bucket(h)), n), h) <==> exists i: nat :: ClaimedWithin(log, h, n, i)
  {
    var all := HashClaims(log, Bucket(h));
    InLast(all, n, h);
    if x: nat :| x < |all| && |all| - x <= n && all[x].key == h {
      var i := PlaceWithin(log, h, n, x);
    }
    if i: nat :| ClaimedWithin(log, h, n, i) {
      PlaceOf(log, i, Bucket(h));
      assert all[|HashClaims(log[..i], Bucket(h))|].key == h;
    }
  }

  lemma PlaceWithin(log: seq<Transaction>, h: Hash, n: nat, x: nat) returns (i: nat)
    requires var all := HashClaims(log, Bucket(h)); x < |all| && |all| - x <= n && all[x].key == h
    ensures ClaimedWithin(log, h, n, i)
  {
    i := ClaimedAt(log, Bucket(h), x);
    PlaceOf(log, i, Bucket(h));
  }

  /** The window, in terms of bytes: a hash is suppressed if and only if it was claimed and
      fewer than cap.hash claims with the same fourth byte modulo 32 were made since. */
  lemma RecentlyClaimedIff(cap: Capacity, log: seq<Transaction>, h: Hash)
    ensures RecentlyClaimed(cap, log, h) <==> exists i: nat :: ClaimedWithin(log, h, cap.hash, i)
  {
    AmongLast(log, h, cap.hash);
  }

  /** What the two caches hold, in terms of the history and of bytes alone. */
  lemma CachedIff(c: Caches, cap: Capacity, log: seq<Transaction>, h: Hash)
    requires HashesFollow(c, cap, log) && TxsFollow(c, cap, log)
    ensures Has(c, h) <==> exists i: nat :: ClaimedWithin(log, h, cap.hash, i)
    ensures HasTx(c, h) <==> exists i: nat :: ClaimedWithin(log, h, cap.tx, i)
  {
    AmongLast(log, h, cap.hash);
    AmongLast(log, h, cap.tx);
    ClaimsAlign(log, Bucket(h));
    SameKeys(HashClaims(log, Bucket(h)), TxClaims(log, Bucket(h)), cap.tx, h);
  }

  /** A cached transaction is the one claimed at such a position. */
  lemma CachedAt(c: Caches, cap: Capacity, log: seq<Transaction>, h: Hash, tx: Transaction) returns (i: nat)
    requires TxsFollow(c, cap, log) && Entry(h, tx) in c.txs[Bucket(h)]
    ensures ClaimedWithin(log, h, cap.tx, i) && log[i] == tx
  {
    var b := Bucket(h);
    var all, last := TxClaims(log, b), Last(TxClaims(log, b), cap.tx);
    var x :| 0 <= x < |last| && last[x] == Entry(h, tx);
    assert last[x] == all[x + |all| - |last|];
    ClaimsAlign(log, b);
    i := ClaimedAt(log, b, x + |all| - |last|);
    PlaceOf(log, i, b);
    TxPlaceOf(log, i, b);
  }

  lemma SameKeys(hs: HashRing, ts: TxRing, n: nat, h: Hash)
    requires |hs| == |ts| && forall i :: 0 <= i < |ts| ==> hs[i].key == ts[i].key
    ensures HasKey(Last(hs, n), h) <==> HasKey(Last(ts, n), h)
  {
    var x, y := Last(hs, n), Last(ts, n);
    assert |x| == |y| && forall i :: 0 <= i < |x| ==> x[i].key == y[i].key;
  }

  lemma DistinctLastSnoc(s: HashRing, h: Hash, n: nat)
    requires DistinctKeys(Last(s, n)) && !HasKey(Last(s, n), h)
    ensures DistinctKeys(Last(s + [Entry(h, ())], n))
  {
    var last, last' := Last(s, n), Last(s + [Entry(h, ())], n);
    var gone := |last| + 1 - |last'|;
    assert forall i :: 0 <= i < |last| ==> last[i].key != h;
    assert forall i :: 0 <= i < |last'| - 1 ==> last'[i] == last[i + gone];
  }

  lemma {:induction false} RecentClaimsDistinct(cap: Capacity, log: seq<Transaction>, b: nat)
    requires Suppressed(cap, log)
    ensures DistinctKeys(Last(HashClaims(log, b), cap.hash))
  {
    if log != [] {
      var n := |log| - 1;
      SuppressedPrefix(cap, log, n);
      RecentClaimsDistinct(cap, log[..n], b);
      if Bucket(log[n].hash) == b {
        assert !RecentlyClaimed(cap, log[..n], log[n].hash);
        DistinctLastSnoc(HashClaims(log[..n], b), log[n].hash, cap.hash);
      } else {
        assert HashClaims(log, b) == HashClaims(log[..n], b);
      }
    }
  }

  /** The claims strictly between two positions. */
  function Between(log: seq<Transaction>, i: nat, j: nat): seq<Transaction>
    requires i < j <= |log|
  {
    log[i + 1..j]
  }

  /** The exact window. Once claimed, a hash that is not claimed again stays suppressed if
      and only if fewer than cap.hash claims have been made in its bucket since. */
  lemma SuppressedExactlyInWindow(cap: Capacity, log: seq<Transaction>, i: nat)
    requires i < |log| && 1 <= cap.hash
    requires forall k :: i < k < |log| ==> log[k].hash != log[i].hash
    ensures RecentlyClaimed(cap, log, log[i].hash)
            <==> |LaterAlike(log, i)| < cap.hash
    ensures |LaterAlike(log, i)| == |HashClaims(Between(log, i, |log|), Bucket(log[i].hash))|
  {
    PlaceOf(log, i, Bucket(log[i].hash));
    var b, e, mid := Bucket(log[i].hash), Entry(log[i].hash, ()), Between(log, i, |log|);
    SplitAt(log, i, |log|, b);
    var all, m := HashClaims(log, b), HashClaims(mid, b);
    assert log[..|log|] == log;
    forall k | 0 <= k < |m| ensures m[k].key != e.key {
      var at := ClaimedAt(mid, b, k);
    }
    if |m| < cap.hash {
      var last := Last(all, cap.hash);
      assert last[|last| - |m| - 1] == e;
    } else {
      assert Last(all, cap.hash) == m[|m| - cap.hash..];
    }
  }

  lemma SplitAt(log: seq<Transaction>, i: nat, j: nat, b: nat)
    requires i < j <= |log| && b == Bucket(log[i].hash)
    ensures HashClaims(log[..j], b)
            == HashClaims(log[..i], b) + [Entry(log[i].hash, ())] + HashClaims(Between(log, i, j), b)
  {
    assert log[..j] == log[..i + 1] + Between(log, i, j);
    assert log[..i + 1][..i] == log[..i];
    ClaimsAppend(log[..i + 1], Between(log, i, j), b);
  }

  /** The hashes other than h claimed in h's bucket by a stretch of log. */
  function Others(stretch: seq<Transaction>, h: Hash): set<Hash> {
    set k | 0 <= k < |stretch| && stretch[k].hash != h && Alike(stretch[k].hash, h) :: stretch[k].hash
  }

  /** When a hash can be claimed again, the last cap.hash claims of its bucket all came
      after its previous claim. */
  lemma RecentComeFromBetween(cap: Capacity, log: seq<Transaction>, i: nat, j: nat)
    requires i < j < |log| && log[i].hash == log[j].hash
    requires !RecentlyClaimed(cap, log[..j], log[j].hash)
    ensures var b := Bucket(log[i].hash);
            var m := HashClaims(Between(log, i, j), b);
            |m| >= cap.hash && Last(HashClaims(log[..j], b), cap.hash) == m[|m| - cap.hash..]
  {
    var b := Bucket(log[i].hash);
    var all, m := HashClaims(log[..j], b), HashClaims(Between(log, i, j), b);
    SplitAt(log, i, j, b);
    assert all[|all| - |m| - 1].key == log[i].hash;
    var last := Last(all, cap.hash);
    assert forall k :: 0 <= k < |last| ==> last[k].key != log[i].hash;
  }

  /** Distinct claims other than h at the end of a stretch are counted by Others. */
  lemma DistinctClaimsCount(stretch: seq<Transaction>, h: Hash, n: nat)
    requires n <= |HashClaims(stretch, Bucket(h))|
    requires var m := HashClaims(stretch, Bucket(h)); DistinctKeys(m[|m| - n..]) && !HasKey(m[|m| - n..], h)
    ensures |Others(stretch, h)| >= n
  {
    var m := HashClaims(stretch, Bucket(h));
    var last := m[|m| - n..];
    var keys := seq(n, k requires 0 <= k < n => last[k].key);
    assert Distinct(keys);
    DistinctCardinality(keys);
    forall x | x in Elements(keys) ensures x in Others(stretch, h) {
      var k :| 0 <= k < n && keys[k] == x;
      var at := ClaimedAt(stretch, Bucket(h), |m| - n + k);
      SameBucketIff(stretch[at].hash, h);
      assert last[k].key == x;
    }
    SubsetCardinality(Elements(keys), Others(stretch, h));
  }

  /** Two claims of one hash are separated by at least cap.hash pairwise distinct other
      hashes of the same bucket. */
  lemma WindowBetweenClaims(cap: Capacity, log: seq<Transaction>, i: nat, j: nat)
    requires Suppressed(cap, log)
    requires i < j < |log| && log[i].hash == log[j].hash
    ensures |Others(Between(log, i, j), log[i].hash)| >= cap.hash
  {
    assert !RecentlyClaimed(cap, log[..j], log[j].hash);
    RecentComeFromBetween(cap, log, i, j);
    SuppressedPrefix(cap, log, j);
    RecentClaimsDistinct(cap, log[..j], Bucket(log[i].hash));
    DistinctClaimsCount(Between(log, i, j), log[i].hash, cap.hash);
  }

  /** One batch admitted on its own keeps the log suppressed. */
  lemma {:induction false} AdmitKeepsSuppressed(c: Caches, cap: Capacity, log: seq<Transaction>,
                                               batch: seq<Transaction>)
    requires cap.Valid() && HashesFollow(c, cap, log) && TxsFollow(c, cap, log) && Suppressed(cap, log)
    ensures Suppressed(cap, log + Admit(c, cap, batch).out)
  {
    if batch == [] {
      assert log + [] == log;
    } else {
      var tx := batch[|batch| - 1];
      var a := Admit(c, cap, batch[..|batch| - 1]);
      AdmitKeepsSuppressed(c, cap, log, batch[..|batch| - 1]);
      AdmitFollowsHistory(c, cap, log, batch[..|batch| - 1]);
      if tx.to.Some? && !Has(a.caches, tx.hash) {
        SuppressedSnoc(cap, log + a.out, tx);
        assert log + (a.out + [tx]) == log + a.out + [tx];
      }
    }
  }

  lemma {:induction false} OutNoLongerThanBatch(c: Caches, cap: Capacity, batch: seq<Transaction>)
    requires c.Shaped()
    ensures |Admit(c, cap, batch).out| <= |batch|
  {
    if batch != [] {
      OutNoLongerThanBatch(c, cap, batch[..|batch| - 1]);
    }
  }

  lemma {:induction false} OthersBounded(stretch: seq<Transaction>, h: Hash)
    ensures |Others(stretch, h)| <= |stretch|
  {
    if stretch != [] {
      var p, x := stretch[..|stretch| - 1], stretch[|stretch| - 1].hash;
      OthersBounded(p, h);
      assert Others(stretch, h) <= Others(p, h) + {x} by {
        assert forall k :: 0 <= k < |p| ==> p[k] == stretch[k];
      }
      SubsetCardinality(Others(stretch, h), Others(p, h) + {x});
    }
  }

  lemma ShortStretchHasNoRepeats(cap: Capacity, log: seq<Transaction>, i: nat, j: nat)
    requires Suppressed(cap, log) && i < j < |log| && j - i <= cap.hash
    ensures log[i].hash != log[j].hash
  {
    if log[i].hash == log[j].hash {
      WindowBetweenClaims(cap, log, i, j);
      OthersBounded(Between(log, i, j), log[i].hash);
      assert false;
    }
  }

  lemma TailHasNoRepeats(cap: Capacity, log: seq<Transaction>, out: seq<Transaction>)
    requires Suppressed(cap, log + out) && |out| <= cap.hash + 1
    ensures Distinct(Hashes(out))
  {
    forall i, j | 0 <= i < j < |out| ensures out[i].hash != out[j].hash {
      ShortStretchHasNoRepeats(cap, log + out, |log| + i, |log| + j);
    }
  }

  /** A published batch repeats no hash when the batch has at most cap.hash + 1 members. */
  lemma OutHasNoRepeats(c: Caches, cap: Capacity, log: seq<Transaction>, batch: seq<Transaction>)
    requires cap.Valid() && HashesFollow(c, cap, log) && TxsFollow(c, cap, log) && Suppressed(cap, log)
    requires |batch| <= cap.hash + 1
    ensures Distinct(Hashes(Admit(c, cap, batch).out))
  {
    AdmitKeepsSuppressed(c, cap, log, batch);
    OutNoLongerThanBatch(c, cap, batch);
    TailHasNoRepeats(cap, log, Admit(c, cap, batch).out);
  }
}
