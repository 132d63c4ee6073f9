/** What overlapping AddRemotes calls can do, for every capacity: one call claims, another
    one claims enough to push that hash out of its ring, and the first goes on. */
module Overlaps {
  import opened Types
  import opened Sequences
  import opened PoolModel
  import opened Batches
  import opened Crowds
  import opened Admission

  lemma {:induction false} SoloRun(cap: Capacity, actions: seq<Action>, id: nat, rounds: nat)
    returns (longer: seq<Action>)
    ensures Run(cap, longer) == Solo(Run(cap, actions), cap, id, rounds)
    decreases rounds
  {
    longer := actions;
    if rounds > 0 {
      longer := SoloRun(cap, actions, id, rounds - 1);
      var s;
      longer, s := RunOne(cap, longer, TryClaim(id));
      longer, s := RunOne(cap, longer, StoreTx(id));
    }
  }

  /** The first call after its claim of Tx(0), with or without the store. */
  function FirstCall(batch: seq<Transaction>, stored: bool): Call {
    Call(batch, [None], if stored then [Tx(0)] else [], if stored then None else Some(Tx(0)), false, 0)
  }

  lemma FirstClaims(cap: Capacity, batch: seq<Transaction>, stored: bool) returns (a: seq<Action>, s: State)
    requires batch != [] && batch[0] == Tx(0)
    ensures s == Run(cap, a) && s.calls == [FirstCall(batch, stored)] && s.claims == [Tx(0)]
  {
    a, s := RunOne(cap, [], Begin(batch));
    assert s.caches == EmptyCaches() && s.calls == [Call(batch, [], [], None, false, 0)];
    a, s := RunOne(cap, a, TryClaim(0));
    assert s.calls[0] == FirstCall(batch, false) && s.claims == [Tx(0)];
    if stored {
      a, s := RunOne(cap, a, StoreTx(0));
      assert s.calls[0] == FirstCall(batch, true);
    }
  }

  /** A whole foreign batch of cap.hash fresh hashes has been claimed in the meantime. */
  lemma OthersClaim(cap: Capacity, batch: seq<Transaction>, stored: bool) returns (a: seq<Action>, s: State)
    requires cap.Valid() && cap.hash < TWO_64 && batch != [] && batch[0] == Tx(0)
    ensures s == Run(cap, a) && s.calls != [] && s.calls[0] == FirstCall(batch, stored)
    ensures s.claims == [Tx(0)] + Row(1, cap.hash) && !Has(s.caches, Numbered(0))
  {
    a, s := FirstClaims(cap, batch, stored);
    a, s := RunOne(cap, a, Begin(Row(1, cap.hash)));
    ForeignAccepted(cap, a);
    ForeignRuns(s, cap, batch, stored);
    a := SoloRun(cap, a, 1, cap.hash);
    s := Run(cap, a);
    RunKeepsInv(cap, a);
    FirstGone(s, cap);
  }

  /** The second call works through its batch alone. */
  lemma ForeignRuns(p: State, cap: Capacity, batch: seq<Transaction>, stored: bool)
    requires p.caches.Shaped() && cap.hash < TWO_64 && p.claims == [Tx(0)]
    requires p.calls == [FirstCall(batch, stored), Call(Row(1, cap.hash), [], [], None, false, 1)]
    requires Admit(p.caches, cap, Row(1, cap.hash)).out == Row(1, cap.hash)
    ensures var q := Solo(p, cap, 1, cap.hash);
            q.calls != [] && q.calls[0] == FirstCall(batch, stored) && q.claims == [Tx(0)] + Row(1, cap.hash)
  {
    SoloCallIsAdmit(p, cap, 1, cap.hash);
    assert Row(1, cap.hash)[..cap.hash] == Row(1, cap.hash);
  }

  lemma FirstGone(s: State, cap: Capacity)
    requires 1 <= cap.hash < TWO_64 && HashesFollow(s.caches, cap, [Tx(0)] + Row(1, cap.hash))
    ensures !Has(s.caches, Numbered(0))
  {
    RowsBetween(cap.hash);
    CrowdedOut(cap);
  }

  lemma ForeignAccepted(cap: Capacity, a: seq<Action>)
    requires cap.hash < TWO_64 && Run(cap, a).claims == [Tx(0)]
    ensures Admit(Run(cap, a).caches, cap, Row(1, cap.hash)).out == Row(1, cap.hash)
  {
    RunKeepsInv(cap, a);
    RowAfterFirst(Run(cap, a).caches, cap);
  }

  lemma RowAfterFirst(c: Caches, cap: Capacity)
    requires cap.hash < TWO_64 && HashesFollow(c, cap, [Tx(0)])
    ensures Admit(c, cap, Row(1, cap.hash)).out == Row(1, cap.hash)
  {
    RowIsDistinct(cap.hash + 1);
    RowsBetween(cap.hash);
    FreshBatch(c, cap, [Tx(0)], Row(1, cap.hash));
  }

  /** The bound on claims during a call is the best possible, for every capacity: with one
      claim more, a batch of two publishes one hash twice. */
  lemma OverlapRepeats(cap: Capacity)
    requires cap.Valid() && cap.hash < TWO_64
    ensures exists actions: seq<Action> ::
              var s := Run(cap, actions);
              && s.calls != [] && |s.calls[0].batch| == 2 && |s.claims| - s.calls[0].begun == cap.hash + 2
              && !Distinct(Hashes(s.calls[0].out))
  {
    var batch := [Tx(0), Tx(0)];
    var a, s := OthersClaim(cap, batch, true);
    a, s := RunOne(cap, a, TryClaim(0));
    assert s.calls[0].out == [Tx(0)] && s.calls[0].claimed == Some(Tx(0));
    a, s := RunOne(cap, a, StoreTx(0));
    assert s.calls[0].out == [Tx(0), Tx(0)];
    assert Hashes(s.calls[0].out)[0] == Hashes(s.calls[0].out)[1];
    assert |Run(cap, a).claims| - Run(cap, a).calls[0].begun == cap.hash + 2;
  }

  /** For every capacity, overlapping calls can leave a cached transaction without its hash. */
  lemma InterleavingBreaksNesting(cap: Capacity)
    requires cap.Valid() && cap.hash < TWO_64
    ensures exists actions: seq<Action> :: !Nested(Run(cap, actions).caches)
  {
    var a, s := OthersClaim(cap, [Tx(0)], false);
    var before := s;
    a, s := RunOne(cap, a, StoreTx(0));
    assert s.caches == Store(before.caches, cap, Tx(0));
    StoredIsFound(before.caches, cap, Tx(0));
    assert HasTx(s.caches, Numbered(0)) && !Has(s.caches, Numbered(0));
    assert !Nested(Run(cap, a).caches);
  }

  lemma StoredIsFound(c: Caches, cap: Capacity, tx: Transaction)
    requires c.Shaped() && 1 <= cap.tx
    ensures HasTx(Store(c, cap, tx), tx.hash)
  {
    var b := Bucket(tx.hash);
    if !HasTx(c, tx.hash) {
      var ring := Store(c, cap, tx).txs[b];
      assert ring[|ring| - 1].key == tx.hash;
    }
  }
}
