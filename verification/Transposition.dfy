/** Turning "transaction, peers that lack it" into "peer, hashes it lacks": the broadcast
    loop's lookups with known-sets unchanged meanwhile, and the same loop on objects. */
module Transposition {
  import opened Types
  import opened Sequences
  import opened Batches
  import opened Relay
  import Announce

  predicate IsLookUp(s: State, s': State) {
    s.next < |s.batch| && s' == LookUpStep(s)
  }

  /** The states of a batch being looked up with nothing in between. */
  ghost predicate LooksUpBatch(trace: seq<State>) {
    && trace != [] && trace[0].next == 0 && trace[0].annos == map[]
    && forall i :: 0 <= i < |trace| - 1 ==> IsLookUp(trace[i], trace[i + 1])
  }

  /** The first n hashes of the batch that connection p lacks. */
  function Missing(s: State, p: nat, n: nat): seq<Hash>
    requires n <= |s.batch|
  {
    if n == 0 then []
    else Missing(s, p, n - 1) + if p in Uninformed(s.conns, s.batch[n - 1]) then [s.batch[n - 1]] else []
  }

  lemma {:induction false} MissingIsUnknown(s: State, p: nat, n: nat)
    requires n <= |s.batch| && p < |s.conns| && s.conns[p].live
    ensures Missing(s, p, n) == Unknown(s.conns[p].known, s.batch[..n])
    decreases n
  {
    if n > 0 {
      MissingIsUnknown(s, p, n - 1);
      UnknownPrefix(s.conns[p].known, s.batch, n - 1);
    }
  }

  lemma {:induction false} GoneLackNothing(s: State, p: nat, n: nat)
    requires n <= |s.batch| && !(p < |s.conns| && s.conns[p].live)
    ensures Missing(s, p, n) == []
    decreases n
  {
    if n > 0 {
      GoneLackNothing(s, p, n - 1);
    }
  }

  lemma CollectOne(s: State, mid: State, after: State, n: nat, p: nat)
    requires mid.next == n <= |s.batch| && mid.batch == s.batch && mid.conns == s.conns && IsLookUp(mid, after)
    requires ListOf(mid.annos, p) == Missing(s, p, n)
    ensures after.next == n + 1 <= |s.batch| && after.batch == s.batch && after.conns == s.conns
    ensures ListOf(after.annos, p) == Missing(s, p, n + 1)
  {
    LookUpExtends(mid, p);
  }

  lemma {:induction false} LookUpsCollect(trace: seq<State>, n: nat, p: nat)
    requires LooksUpBatch(trace) && n < |trace|
    ensures trace[n].next == n <= |trace[0].batch| && trace[n].batch == trace[0].batch
            && trace[n].conns == trace[0].conns
    ensures ListOf(trace[n].annos, p) == Missing(trace[0], p, n)
    decreases n
  {
    if n > 0 {
      LookUpsCollect(trace, n - 1, p);
      assert IsLookUp(trace[n - 1], trace[n - 1 + 1]);
      CollectOne(trace[0], trace[n - 1], trace[n], n - 1, p);
    }
  }

  /** Right after a batch was looked up with known-sets unchanged, the pending lists are
      exactly the unknown hashes of each registered connection, in batch order. */
  lemma ListsAreExact(trace: seq<State>, p: nat)
    requires LooksUpBatch(trace) && |trace| == |trace[0].batch| + 1
    ensures var s, done := trace[0], trace[|trace| - 1];
            ListOf(done.annos, p) == if p < |s.conns| && s.conns[p].live then Unknown(s.conns[p].known, s.batch) else []
  {
    var s := trace[0];
    LookUpsCollect(trace, |s.batch|, p);
    if p < |s.conns| && s.conns[p].live {
      MissingIsUnknown(s, p, |s.batch|);
      assert s.batch[..|s.batch|] == s.batch;
    } else {
      GoneLackNothing(s, p, |s.batch|);
    }
  }

  lemma LookUpExtends(s: State, p: nat)
    requires s.next < |s.batch|
    ensures ListOf(LookUpStep(s).annos, p)
            == ListOf(s.annos, p) + if p in Uninformed(s.conns, s.batch[s.next]) then [s.batch[s.next]] else []
  {
    assert ListOf(s.annos, p) + [] == ListOf(s.annos, p);
  }

  /** A batch looked up with known-sets unchanged asks for a repeated announcement to a
      registered connection exactly when it repeats a hash the connection does not know. */
  lemma ListRepeatsIff(trace: seq<State>, p: nat)
    requires LooksUpBatch(trace) && |trace| == |trace[0].batch| + 1
    requires p < |trace[0].conns| && trace[0].conns[p].live
    ensures var s, done := trace[0], trace[|trace| - 1];
            Distinct(ListOf(done.annos, p)) <==> RepeatsOnlyKnown(s.conns[p].known, s.batch)
  {
    ListsAreExact(trace, p);
    UnknownRepeats(trace[0].conns[p].known, trace[0].batch);
  }

  /** The machine's lists and the lists the loop on peer objects builds are the same, when
      the objects are the registered connections with the same known-sets. */
  lemma BothTranspose(trace: seq<State>, live: seq<nat>, peers: seq<Announce.Peer>, knowns: seq<set<Hash>>,
                      annos: map<Announce.Peer, seq<Hash>>)
    requires LooksUpBatch(trace) && |trace| == |trace[0].batch| + 1
    requires |live| == |peers| == |knowns|
    requires forall i :: 0 <= i < |live| ==>
               && live[i] < |trace[0].conns| && trace[0].conns[live[i]].live
               && trace[0].conns[live[i]].known == knowns[i]
    requires Announce.ListsExact(annos, peers, knowns, trace[0].batch)
    ensures forall i :: 0 <= i < |live| ==>
              ListOf(trace[|trace| - 1].annos, live[i]) == Announce.ListOf(annos, peers[i])
  {
    forall i | 0 <= i < |live|
      ensures ListOf(trace[|trace| - 1].annos, live[i]) == Announce.ListOf(annos, peers[i])
    {
      ListsAreExact(trace, live[i]);
      assert Announce.ListOf(annos, peers[i]) == Unknown(knowns[i], trace[0].batch);
    }
  }
}
