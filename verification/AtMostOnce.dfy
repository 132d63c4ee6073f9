/** When a hash is announced at most once to each peer, and when it is not. */
module AtMostOnce {
  import opened Types
  import opened Sequences
  import opened PoolModel
  import opened Batches
  import opened Relay
  import Admission
  import Crowds
  import Echo

  // ----- Batches without repetitions -----

  /** Every batch waiting for the loop, at any time of the run, repeats no hash. */
  ghost predicate CleanBatches(cap: Capacity, actions: seq<Action>) {
    forall n :: 0 <= n <= |actions| ==> CleanQueue(Run(cap, actions[..n]))
  }

  ghost predicate CleanQueue(s: State) {
    forall i :: 0 <= i < |s.queue| ==> Distinct(s.queue[i])
  }

  /** The lookups of a relay are the members of its batch, one each. */
  ghost predicate LookedUpOnce(s: State, h: Hash) {
    && s.next <= |s.batch| && Distinct(s.batch)
    && Echo.Since(s.log, LookedUp(h)) == multiset(s.batch[..s.next])[h]
    && forall k, p: nat :: 0 <= k < |s.log| && s.log[k] == Announced(p, h) ==> Echo.Since(s.log[..k], LookedUp(h)) <= 1
  }

  lemma {:induction false} DistinctCounts(hashes: seq<Hash>, h: Hash)
    requires Distinct(hashes)
    ensures multiset(hashes)[h] <= 1
    decreases |hashes|
  {
    if hashes != [] {
      var n := |hashes| - 1;
      DistinctCounts(hashes[..n], h);
      assert hashes == hashes[..n] + [hashes[n]];
    }
  }

  lemma DistinctPrefixCounts(hashes: seq<Hash>, n: nat, h: Hash)
    requires Distinct(hashes) && n <= |hashes|
    ensures multiset(hashes[..n])[h] <= 1
  {
    DistinctCounts(hashes[..n], h);
  }

  /** Events of a relay that look nothing up; announcements among them follow its lookups. */
  lemma QuietKeepsOnce(s: State, s': State, more: seq<Event>, h: Hash)
    requires LookedUpOnce(s, h) && s'.batch == s.batch && s'.next == s.next && s'.log == s.log + more
    requires forall e :: e in more ==> !e.Taken? && !e.LookedUp?
    ensures LookedUpOnce(s', h)
  {
    Echo.SinceAppend(s.log, more, LookedUp(h));
    DistinctPrefixCounts(s.batch, s.next, h);
    forall k, p: nat | 0 <= k < |s'.log| && s'.log[k] == Announced(p, h)
      ensures Echo.Since(s'.log[..k], LookedUp(h)) <= 1
    {
      if k < |s.log| {
        assert s'.log[..k] == s.log[..k];
      } else {
        assert s'.log[..k] == s.log + more[..k - |s.log|];
        Echo.SinceAppend(s.log, more[..k - |s.log|], LookedUp(h));
        assert LookedUp(h) !in more[..k - |s.log|];
      }
    }
  }

  /** A single event that announces nothing. */
  lemma PlainEvent(log: seq<Event>, e: Event, h: Hash)
    requires !e.Announced?
    requires forall k, p: nat :: 0 <= k < |log| && log[k] == Announced(p, h) ==> Echo.Since(log[..k], LookedUp(h)) <= 1
    ensures forall k, p: nat :: 0 <= k < |log + [e]| && (log + [e])[k] == Announced(p, h) ==>
              Echo.Since((log + [e])[..k], LookedUp(h)) <= 1
  {
    forall k, p: nat | 0 <= k < |log + [e]| && (log + [e])[k] == Announced(p, h)
      ensures Echo.Since((log + [e])[..k], LookedUp(h)) <= 1
    {
      assert (log + [e])[..k] == log[..k];
    }
  }

  lemma TakeKeepsOnce(s: State, cap: Capacity, h: Hash)
    requires s.pool.caches.Shaped() && LookedUpOnce(s, h) && CleanQueue(s) && Enabled(s, Take)
    ensures LookedUpOnce(Step(s, cap, Take), h)
  {
    PlainEvent(s.log, Taken(s.queue[0]), h);
    assert Distinct(s.queue[0]);
  }

  lemma LookUpKeepsOnce(s: State, h: Hash)
    requires LookedUpOnce(s, h) && s.next < |s.batch|
    ensures LookedUpOnce(LookUpStep(s), h)
  {
    PlainEvent(s.log, LookedUp(s.batch[s.next]), h);
    assert LookUpStep(s).log[..|s.log|] == s.log;
    assert s.batch[..s.next + 1] == s.batch[..s.next] + [s.batch[s.next]];
  }

  lemma StepKeepsOnce(s: State, cap: Capacity, a: Action, h: Hash)
    requires s.pool.caches.Shaped() && LookedUpOnce(s, h) && CleanQueue(s)
    ensures LookedUpOnce(Step(s, cap, a), h)
  {
    if !Enabled(s, a) {
      return;
    }
    match a
    case Take => TakeKeepsOnce(s, cap, h);
    case LookUp => LookUpKeepsOnce(s, h);
    case _ =>
      NoteIsLogged(s, cap, a);
      QuietKeepsOnce(s, Step(s, cap, a), Note(s, a), h);
  }

  lemma {:induction false} RunKeepsOnce(cap: Capacity, actions: seq<Action>, h: Hash)
    requires CleanBatches(cap, actions)
    ensures LookedUpOnce(Run(cap, actions), h)
    decreases |actions|
  {
    if actions != [] {
      var p := actions[..|actions| - 1];
      assert forall n :: 0 <= n <= |p| ==> p[..n] == actions[..n];
      RunKeepsOnce(cap, p, h);
      assert CleanQueue(Run(cap, p[..|p|])) && p[..|p|] == p;
      StepKeepsOnce(Run(cap, p), cap, actions[|p|], h);
    }
  }

  /** When no published batch repeats a hash, no connection is announced the same hash twice. */
  lemma AnnouncedAtMostOnce(cap: Capacity, actions: seq<Action>, k: nat, l: nat)
    requires CleanBatches(cap, actions)
    requires k < l < |Run(cap, actions).log| && Run(cap, actions).log[k].Announced?
    ensures Run(cap, actions).log[k] != Run(cap, actions).log[l]
  {
    var log := Run(cap, actions).log;
    var p, h := log[k].to, log[k].what;
    if log[k] == log[l] {
      RunKeepsOnce(cap, actions, h);
      Echo.AnnouncedAsOftenAsOwed(cap, actions, k, p, h);
      Echo.CountedTwice(log, k);
      OwedNeedsLookUps(log[..k], p, h);
    }
  }

  lemma {:induction false} OwedNeedsLookUps(log: seq<Event>, p: nat, h: Hash)
    ensures Echo.Owed(log, p, h) <= Echo.Since(log, LookedUp(h))
    decreases |log|
  {
    if log != [] {
      OwedNeedsLookUps(log[..|log| - 1], p, h);
    }
  }

  // ----- Which runs have clean batches -----

  /** No call publishes after more than cap.hash + 1 claims were made since it began. */
  ghost predicate ShortCalls(cap: Capacity, actions: seq<Action>) {
    forall n :: 0 <= n < |actions| ==> ShortPublish(cap, Run(cap, actions[..n]), actions[n])
  }

  ghost predicate ShortPublish(cap: Capacity, s: State, a: Action) {
    Publishes(s, a) ==> |s.pool.claims| - s.pool.calls[a.step.id].begun <= cap.hash + 1
  }

  lemma StepKeepsClean(s: State, cap: Capacity, a: Action)
    requires PoolInv(s, cap) && CleanQueue(s) && ShortPublish(cap, s, a)
    ensures CleanQueue(Step(s, cap, a))
  {
    if Publishes(s, a) {
      Admission.FewClaimsNoRepeats(cap, s.pool, a.step.id);
    }
    OnlyPublishQueues(s, cap, a);
    var queue := Step(s, cap, a).queue;
    forall i | 0 <= i < |queue| ensures Distinct(queue[i]) {
      if queue[i] in s.queue {
        var k :| 0 <= k < |s.queue| && s.queue[k] == queue[i];
      }
    }
  }

  lemma {:induction false} ShortCallsKeepClean(cap: Capacity, actions: seq<Action>)
    requires ShortCalls(cap, actions)
    ensures CleanQueue(Run(cap, actions))
  {
    if actions != [] {
      var p := actions[..|actions| - 1];
      assert forall n :: 0 <= n <= |p| ==> p[..n] == actions[..n];
      ShortCallsKeepClean(cap, p);
      RunKeepsPoolInv(cap, p);
      assert ShortPublish(cap, Run(cap, actions[..|p|]), actions[|p|]);
      StepKeepsClean(Run(cap, p), cap, actions[|p|]);
    }
  }

  /** Short calls publish clean batches, however they interleave. */
  lemma ShortCallsAreClean(cap: Capacity, actions: seq<Action>)
    requires ShortCalls(cap, actions)
    ensures CleanBatches(cap, actions)
  {
    forall n | 0 <= n <= |actions| ensures CleanQueue(Run(cap, actions[..n])) {
      assert forall k :: 0 <= k < n ==> actions[..n][..k] == actions[..k];
      ShortCallsKeepClean(cap, actions[..n]);
    }
  }

  // ----- A run that announces a hash twice -----

  function Wrapped(txs: seq<Transaction>): seq<Option<Transaction>> {
    seq(|txs|, i requires 0 <= i < |txs| => Some(txs[i]))
  }

  lemma {:induction false} NothingNil(txs: seq<Transaction>)
    ensures BeforeNil(Wrapped(txs)) == txs
    decreases |txs|
  {
    if txs != [] {
      var n := |txs| - 1;
      NothingNil(txs[..n]);
      assert Wrapped(txs)[..n] == Wrapped(txs[..n]);
      assert txs == txs[..n] + [txs[n]];
    }
  }

  lemma RunOne(cap: Capacity, actions: seq<Action>, a: Action) returns (next: seq<Action>, s: State)
    ensures next == actions + [a] && s == Run(cap, next) == Step(Run(cap, actions), cap, a)
  {
    next := actions + [a];
    assert next[..|actions|] == actions;
    s := Run(cap, next);
  }

  /** A claim or a store changes nothing but the pool. */
  lemma InCallLifts(s: State, cap: Capacity, step: Admission.Action)
    requires s.pool.caches.Shaped() && (step.TryClaim? || step.StoreTx?)
    ensures Step(s, cap, InCall(step)) == s.(pool := Admission.Step(s.pool, cap, step))
  {
    assert s.queue + [] == s.queue;
  }

  lemma {:induction false} SoloLifts(cap: Capacity, actions: seq<Action>, rounds: nat) returns (longer: seq<Action>)
    ensures var s := Run(cap, actions); Run(cap, longer) == s.(pool := Admission.Solo(s.pool, cap, 0, rounds))
    decreases rounds
  {
    longer := actions;
    if rounds > 0 {
      longer := SoloLifts(cap, actions, rounds - 1);
      longer := RoundLifts(cap, longer);
    }
  }

  lemma RoundLifts(cap: Capacity, actions: seq<Action>) returns (longer: seq<Action>)
    ensures var s := Run(cap, actions);
            Run(cap, longer) == s.(pool := Admission.Step(Admission.Step(s.pool, cap, Admission.TryClaim(0)), cap,
                                                          Admission.StoreTx(0)))
  {
    var s;
    InCallLifts(Run(cap, actions), cap, Admission.TryClaim(0));
    longer, s := RunOne(cap, actions, InCall(Admission.TryClaim(0)));
    InCallLifts(s, cap, Admission.StoreTx(0));
    longer, s := RunOne(cap, longer, InCall(Admission.StoreTx(0)));
  }

  /** Two connections; the first one sent the batch, and a call is about to admit it. */
  ghost predicate Submitted(s: State, batch: seq<Transaction>) {
    && |s.conns| == 2 && s.conns[1] == Conn({}, true)
    && s.pool == Admission.State(EmptyCaches(), [Admission.Call(batch, [], [], None, false, 0)], [], [])
    && s.queue == [] && s.batch == [] && s.next == 0 && s.annos == map[] && s.loop == Listening
  }

  lemma SubmitBatch(cap: Capacity, batch: seq<Transaction>) returns (a: seq<Action>, s: State)
    ensures s == Run(cap, a) && Submitted(s, batch)
  {
    NothingNil(batch);
    a, s := RunOne(cap, [], Connect);
    a, s := RunOne(cap, a, Connect);
    assert s.conns == [Conn({}, true), Conn({}, true)] && s.inbox == [] && s.pool == Admission.Init();
    a, s := RunOne(cap, a, TxsArrive(0, Wrapped(batch)));
    assert s.inbox == [batch] && s.conns[1] == Conn({}, true);
    a, s := RunOne(cap, a, Submit(0));
    assert s.pool.calls == [Admission.Call(batch, [], [], None, false, 0)];
  }

  /** The batch is admitted whole, published and taken by the loop. */
  ghost predicate BatchTaken(s: State, hashes: seq<Hash>) {
    && |s.conns| == 2 && s.conns[1] == Conn({}, true)
    && s.batch == hashes && s.next == 0 && s.annos == map[]
  }

  /** The pool of s after its only call accepted the whole batch. */
  ghost predicate Accepted(s: State, batch: seq<Transaction>) {
    && |s.conns| == 2 && s.conns[1] == Conn({}, true)
    && |s.pool.calls| == 1 && s.pool.calls[0].batch == s.pool.calls[0].out == batch
    && Admission.CanPublish(s.pool.calls[0]) && s.pool.events == []
    && s.queue == [] && s.batch == [] && s.next == 0 && s.annos == map[] && s.loop == Listening
  }

  lemma AcceptBatch(cap: Capacity) returns (a: seq<Action>)
    requires cap.Valid() && cap.hash < TWO_64
    ensures Accepted(Run(cap, a), Crowds.Returning(cap))
  {
    var batch := Crowds.Returning(cap);
    var s;
    a, s := SubmitBatch(cap, batch);
    SoloAccepts(s.pool, cap);
    a := SoloLifts(cap, a, |batch|);
  }

  lemma SoloAccepts(p: Admission.State, cap: Capacity)
    requires cap.Valid() && cap.hash < TWO_64
    requires p == Admission.State(EmptyCaches(),
                                  [Admission.Call(Crowds.Returning(cap), [], [], None, false, 0)], [], [])
    ensures var batch := Crowds.Returning(cap);
            var q := Admission.Solo(p, cap, 0, |batch|);
            && |q.calls| == 1 && q.calls[0].batch == q.calls[0].out == batch
            && Admission.CanPublish(q.calls[0]) && q.events == []
  {
    var batch := Crowds.Returning(cap);
    assert batch[..|batch|] == batch;
    Admission.SoloCallIsAdmit(p, cap, 0, |batch|);
    EmptyFollows(cap);
    Crowds.ReturningAccepted(EmptyCaches(), cap);
  }

  lemma PublishBatch(cap: Capacity) returns (a: seq<Action>, s: State)
    requires cap.Valid() && cap.hash < TWO_64
    ensures s == Run(cap, a) && BatchTaken(s, Hashes(Crowds.Returning(cap)))
  {
    a := AcceptBatch(cap);
    a, s := RunOne(cap, a, InCall(Admission.Publish(0)));
    assert s.queue == [Hashes(Crowds.Returning(cap))];
    a, s := RunOne(cap, a, Take);
  }

  /** The second connection knows nothing, so its list is all that was looked up. */
  lemma {:induction false} LookUpAll(cap: Capacity, actions: seq<Action>, hashes: seq<Hash>, n: nat)
    returns (longer: seq<Action>)
    requires BatchTaken(Run(cap, actions), hashes) && n <= |hashes|
    ensures SecondOwed(Run(cap, longer), hashes, n)
    decreases n
  {
    longer := actions;
    if n > 0 {
      longer := LookUpAll(cap, actions, hashes, n - 1);
      SecondLooked(Run(cap, longer), hashes, n - 1);
      var s;
      longer, s := RunOne(cap, longer, LookUp);
    }
  }

  /** n hashes were looked up, and the second connection is owed all of them. */
  ghost predicate SecondOwed(s: State, hashes: seq<Hash>, n: nat) {
    && |s.conns| == 2 && s.conns[1] == Conn({}, true) && s.batch == hashes && s.next == n <= |hashes|
    && ListOf(s.annos, 1) == hashes[..n]
  }

  lemma SecondLooked(s: State, hashes: seq<Hash>, n: nat)
    requires SecondOwed(s, hashes, n) && n < |hashes|
    ensures SecondOwed(LookUpStep(s), hashes, n + 1)
  {
    assert 1 in Uninformed(s.conns, hashes[n]);
    assert hashes[..n + 1] == hashes[..n] + [hashes[n]];
  }

  /** For every capacity: a peer can be announced one hash twice, namely when one transaction
      too many made the pool publish it twice in one batch. */
  lemma RepeatReachesPeer(cap: Capacity)
    requires cap.Valid() && cap.hash < TWO_64
    ensures exists actions: seq<Action>, k, l ::
              && 0 <= k < l < |Run(cap, actions).log|
              && Run(cap, actions).log[k].Announced? && Run(cap, actions).log[k] == Run(cap, actions).log[l]
  {
    var hashes := Hashes(Crowds.Returning(cap));
    var a, s := PublishBatch(cap);
    a := LookUpAll(cap, a, hashes, |hashes|);
    var before := Run(cap, a);
    a, s := RunOne(cap, a, Send(1, true));
    assert hashes[0] == hashes[cap.hash + 1];
    SecondSent(before, cap, hashes, 0, cap.hash + 1);
    assert Run(cap, a).log[|before.log|] == Run(cap, a).log[|before.log| + cap.hash + 1];
  }

  lemma SecondSent(s: State, cap: Capacity, hashes: seq<Hash>, i: nat, j: nat)
    requires s.pool.caches.Shaped() && SecondOwed(s, hashes, |hashes|) && i < j < |hashes| && hashes[i] == hashes[j]
    ensures var log, k, l := Step(s, cap, Send(1, true)).log, |s.log| + i, |s.log| + j;
            k < l < |log| && log[k].Announced? && log[k] == log[l]
  {
    assert hashes[..|hashes|] == hashes && s.annos[1] == hashes;
    NoteIsLogged(s, cap, Send(1, true));
  }
}
