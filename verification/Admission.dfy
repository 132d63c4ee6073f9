/** Any number of AddRemotes calls running at once. A call claims a hash, stores the
    transaction and publishes its batch in separate atomic steps, so calls interleave. */
module Admission {
  import opened Types
  import opened Sequences
  import opened Ring
  import opened PoolModel
  import opened Window
  import opened Batches

  /** One running call. `claimed` is a transaction claimed but not yet appended to `out`;
      `begun`, the number of claims made before the call, is bookkeeping. */
  datatype Call = Call(batch: seq<Transaction>, errs: seq<Option<AddError>>, out: seq<Transaction>,
                       claimed: Option<Transaction>, returned: bool, begun: nat)

  /** `claims`: every successful claim, in order. `events`: every batch published. */
  datatype State = State(caches: Caches, calls: seq<Call>, claims: seq<Transaction>, events: seq<seq<Transaction>>)

  datatype Action = Begin(batch: seq<Transaction>) | TryClaim(id: nat) | StoreTx(id: nat) | Publish(id: nat)

  function Init(): State {
    State(EmptyCaches(), [], [], [])
  }

  predicate CanClaim(c: Call) {
    c.claimed.None? && |c.errs| < |c.batch|
  }

  predicate CanPublish(c: Call) {
    !c.returned && c.claimed.None? && |c.errs| == |c.batch|
  }

  /** The transaction a call looks at next. */
  function Current(c: Call): Transaction
    requires CanClaim(c)
  {
    c.batch[|c.errs|]
  }

  /** Lines 84 to 99: reject a contract creation, or try to claim the hash. */
  function ClaimStep(s: State, cap: Capacity, id: nat): (s': State)
    requires s.caches.Shaped() && id < |s.calls| && CanClaim(s.calls[id])
    ensures s'.caches.Shaped()
  {
    var call, tx := s.calls[id], Current(s.calls[id]);
    if tx.to.None? then
      s.(calls := s.calls[id := call.(errs := call.errs + [Some(IsCreateContract)])])
    else if Has(s.caches, tx.hash) then
      s.(calls := s.calls[id := call.(errs := call.errs + [Some(AlreadyKnown)])])
    else
      State(Claim(s.caches, cap, tx.hash),
            s.calls[id := call.(errs := call.errs + [None], claimed := Some(tx))],
            s.claims + [tx], s.events)
  }

  function StoreStep(s: State, cap: Capacity, id: nat): (s': State)
    requires s.caches.Shaped() && id < |s.calls| && s.calls[id].claimed.Some?
    ensures s'.caches.Shaped()
  {
    var call := s.calls[id];
    s.(caches := Store(s.caches, cap, call.claimed.value),
       calls := s.calls[id := call.(out := call.out + [call.claimed.value], claimed := None)])
  }

  function PublishStep(s: State, id: nat): State
    requires id < |s.calls| && CanPublish(s.calls[id])
  {
    var call := s.calls[id];
    s.(calls := s.calls[id := call.(returned := true)],
       events := s.events + if call.out == [] then [] else [call.out])
  }

  predicate Enabled(s: State, a: Action) {
    match a
    case Begin(batch) => true
    case TryClaim(id) => id < |s.calls| && CanClaim(s.calls[id])
    case StoreTx(id) => id < |s.calls| && s.calls[id].claimed.Some?
    case Publish(id) => id < |s.calls| && CanPublish(s.calls[id])
  }

  /** One atomic step. An action that cannot happen now leaves the state alone, so every
      sequence of actions is a run. */
  function Step(s: State, cap: Capacity, a: Action): (s': State)
    requires s.caches.Shaped()
    ensures s'.caches.Shaped()
  {
    if !Enabled(s, a) then s else
    match a
    case Begin(batch) => s.(calls := s.calls + [Call(batch, [], [], None, false, |s.claims|)])
    case TryClaim(id) => ClaimStep(s, cap, id)
    case StoreTx(id) => StoreStep(s, cap, id)
    case Publish(id) => PublishStep(s, id)
  }

  function Run(cap: Capacity, actions: seq<Action>): (s: State)
    ensures s.caches.Shaped()
  {
    if actions == [] then Init()
    else Step(Run(cap, actions[..|actions| - 1]), cap, actions[|actions| - 1])
  }

  /** Claims a call still holds: neither published nor dropped. */
  function Held(c: Call): multiset<Transaction> {
    if c.returned then multiset{}
    else multiset(c.out) + if c.claimed.Some? then multiset{c.claimed.value} else multiset{}
  }

  function HeldByAll(calls: seq<Call>): multiset<Transaction> {
    if calls == [] then multiset{}
    else HeldByAll(calls[..|calls| - 1]) + Held(calls[|calls| - 1])
  }

  lemma HeldLast(calls: seq<Call>, t: Transaction)
    requires calls != []
    ensures HeldByAll(calls)[t] == HeldByAll(calls[..|calls| - 1])[t] + Held(calls[|calls| - 1])[t]
  {
  }

  /** How replacing one call shifts what all calls hold of one transaction. */
  lemma {:induction false} HeldUpdate(calls: seq<Call>, id: nat, c: Call, t: Transaction)
    requires id < |calls|
    ensures HeldByAll(calls[id := c])[t] + Held(calls[id])[t] == HeldByAll(calls)[t] + Held(c)[t]
    decreases |calls|
  {
    var n := |calls| - 1;
    HeldLast(calls, t);
    HeldLast(calls[id := c], t);
    if id < n {
      HeldUpdate(calls[..n], id, c, t);
      assert calls[id := c][..n] == calls[..n][id := c];
    } else {
      assert calls[id := c][..n] == calls[..n];
    }
  }

  /** A call's error list covers a prefix of its batch and its accepted transactions are
      exactly those without error, in order. */
  ghost predicate CallOk(c: Call) {
    && |c.errs| <= |c.batch|
    && Accepted(c.batch, c.errs) == c.out + (if c.claimed.Some? then [c.claimed.value] else [])
    && (c.claimed.Some? ==> !c.returned)
    && (c.returned ==> |c.errs| == |c.batch|)
    && forall i :: 0 <= i < |c.errs| ==> (c.errs[i] == Some(IsCreateContract) <==> c.batch[i].to.None?)
  }

  /** The conservation part of the invariant. */
  ghost predicate Conserved(s: State) {
    multiset(s.claims) == multiset(Flatten(s.events)) + HeldByAll(s.calls)
  }

  ghost predicate Inv(s: State, cap: Capacity) {
    && HashesFollow(s.caches, cap, s.claims)
    && Suppressed(cap, s.claims)
    && Conserved(s)
    && CallsOk(s.calls)
  }

  /** A call that gains claims and gives up published ones keeps the balance. */
  lemma CallChange(s: State, s': State, id: nat, gained: multiset<Transaction>, published: multiset<Transaction>)
    requires Conserved(s) && id < |s.calls| && |s'.calls| == |s.calls| && s'.calls == s.calls[id := s'.calls[id]]
    requires multiset(s'.claims) == multiset(s.claims) + gained
    requires multiset(Flatten(s'.events)) == multiset(Flatten(s.events)) + published
    requires Held(s'.calls[id]) + published == Held(s.calls[id]) + gained
    ensures Conserved(s')
  {
    forall t ensures multiset(s'.claims)[t] == (multiset(Flatten(s'.events)) + HeldByAll(s'.calls))[t] {
      HeldUpdate(s.calls, id, s'.calls[id], t);
      assert multiset(s.claims)[t] == (multiset(Flatten(s.events)) + HeldByAll(s.calls))[t];
      assert (Held(s'.calls[id]) + published)[t] == (Held(s.calls[id]) + gained)[t];
    }
  }

  lemma HoldsOneMore(c: Call, errs: seq<Option<AddError>>, tx: Transaction)
    requires c.claimed.None? && !c.returned
    ensures Held(c.(errs := errs)) == Held(c)
    ensures Held(c.(errs := errs, claimed := Some(tx))) == Held(c) + multiset{tx}
  {
  }

  lemma ClaimKeepsConserved(s: State, cap: Capacity, id: nat)
    requires s.caches.Shaped() && Conserved(s) && id < |s.calls| && CanClaim(s.calls[id]) && !s.calls[id].returned
    ensures Conserved(ClaimStep(s, cap, id))
  {
    var s', tx := ClaimStep(s, cap, id), Current(s.calls[id]);
    var c, c' := s.calls[id], s'.calls[id];
    HoldsOneMore(c, c'.errs, tx);
    if tx.to.None? || Has(s.caches, tx.hash) {
      assert c' == c.(errs := c'.errs) && s'.claims == s.claims;
      CallChange(s, s', id, multiset{}, multiset{});
    } else {
      assert c' == c.(errs := c'.errs, claimed := Some(tx));
      CallChange(s, s', id, multiset{tx}, multiset{});
    }
  }

  lemma StoreKeepsConserved(s: State, cap: Capacity, id: nat)
    requires s.caches.Shaped() && Conserved(s) && id < |s.calls| && s.calls[id].claimed.Some? && !s.calls[id].returned
    ensures Conserved(StoreStep(s, cap, id))
  {
    CallChange(s, StoreStep(s, cap, id), id, multiset{}, multiset{});
  }

  lemma PublishKeepsConserved(s: State, id: nat)
    requires s.caches.Shaped() && Conserved(s) && id < |s.calls| && CanPublish(s.calls[id])
    ensures Conserved(PublishStep(s, id))
  {
    FlattenSnoc(s.events, s.calls[id].out);
    assert multiset(Flatten(s.events) + s.calls[id].out) == multiset(Flatten(s.events)) + multiset(s.calls[id].out);
    assert s.calls[id].out == [] ==> PublishStep(s, id).events == s.events;
    CallChange(s, PublishStep(s, id), id, multiset{}, multiset(s.calls[id].out));
  }

  ghost predicate CallsOk(calls: seq<Call>) {
    forall i :: 0 <= i < |calls| ==> CallOk(calls[i])
  }

  /** One more result for the next transaction of a call. */
  lemma OneMoreResult(c: Call, e: Option<AddError>)
    requires CanClaim(c) && CallOk(c) && (e == Some(IsCreateContract) <==> Current(c).to.None?)
    ensures CallOk(c.(errs := c.errs + [e], claimed := if e.None? then Some(Current(c)) else None))
  {
    AcceptedSnoc(c.batch, c.errs, e);
    assert c.out + [] == c.out;
  }

  lemma ClaimKeepsCallOk(s: State, cap: Capacity, id: nat)
    requires s.caches.Shaped() && id < |s.calls| && CanClaim(s.calls[id]) && CallOk(s.calls[id])
    ensures CallOk(ClaimStep(s, cap, id).calls[id])
  {
    OneMoreResult(s.calls[id], ClaimStep(s, cap, id).calls[id].errs[|s.calls[id].errs|]);
  }

  lemma ClaimKeepsLog(s: State, cap: Capacity, id: nat)
    requires HashesFollow(s.caches, cap, s.claims) && Suppressed(cap, s.claims)
    requires id < |s.calls| && CanClaim(s.calls[id])
    ensures var s' := ClaimStep(s, cap, id); HashesFollow(s'.caches, cap, s'.claims) && Suppressed(cap, s'.claims)
  {
    var tx := Current(s.calls[id]);
    if tx.to.Some? && !Has(s.caches, tx.hash) {
      ClaimFollows(s.caches, cap, s.claims, tx);
      SuppressedSnoc(cap, s.claims, tx);
    }
  }

  lemma CallsOkUpdate(calls: seq<Call>, id: nat, c: Call)
    requires CallsOk(calls) && id < |calls| && CallOk(c)
    ensures CallsOk(calls[id := c])
  {
  }

  lemma ClaimKeepsCalls(s: State, cap: Capacity, id: nat)
    requires s.caches.Shaped() && CallsOk(s.calls) && id < |s.calls| && CanClaim(s.calls[id])
    ensures CallsOk(ClaimStep(s, cap, id).calls)
  {
    ClaimKeepsCallOk(s, cap, id);
    CallsOkUpdate(s.calls, id, ClaimStep(s, cap, id).calls[id]);
  }

  lemma ClaimKeepsInv(s: State, cap: Capacity, id: nat)
    requires Inv(s, cap) && id < |s.calls| && CanClaim(s.calls[id])
    ensures Inv(ClaimStep(s, cap, id), cap)
  {
    assert CallOk(s.calls[id]);
    ClaimKeepsConserved(s, cap, id);
    ClaimKeepsCalls(s, cap, id);
    ClaimKeepsLog(s, cap, id);
  }

  lemma StoreKeepsInv(s: State, cap: Capacity, id: nat)
    requires Inv(s, cap) && id < |s.calls| && s.calls[id].claimed.Some?
    ensures Inv(StoreStep(s, cap, id), cap)
  {
    assert CallOk(s.calls[id]);
    StoreKeepsConserved(s, cap, id);
    StoreKeepsCalls(s, cap, id);
  }

  lemma StoreKeepsCalls(s: State, cap: Capacity, id: nat)
    requires s.caches.Shaped() && CallsOk(s.calls) && id < |s.calls| && s.calls[id].claimed.Some?
    ensures CallsOk(StoreStep(s, cap, id).calls)
  {
    CallsOkUpdate(s.calls, id, StoreStep(s, cap, id).calls[id]);
  }

  lemma PublishKeepsInv(s: State, cap: Capacity, id: nat)
    requires Inv(s, cap) && id < |s.calls| && CanPublish(s.calls[id])
    ensures Inv(PublishStep(s, id), cap)
  {
    assert CallOk(s.calls[id]);
    PublishKeepsConserved(s, id);
    CallsOkUpdate(s.calls, id, PublishStep(s, id).calls[id]);
  }

  lemma BeginKeepsInv(s: State, cap: Capacity, batch: seq<Transaction>)
    requires Inv(s, cap)
    ensures Inv(Step(s, cap, Begin(batch)), cap)
  {
    var s' := Step(s, cap, Begin(batch));
    HoldingNothing(s.calls, Call(batch, [], [], None, false, |s.claims|));
    assert CallsOk(s'.calls);
  }

  lemma HoldingNothing(calls: seq<Call>, c: Call)
    requires Held(c) == multiset{}
    ensures HeldByAll(calls + [c]) == HeldByAll(calls)
  {
    assert (calls + [c])[..|calls|] == calls;
  }

  lemma StepKeepsInv(s: State, cap: Capacity, a: Action)
    requires Inv(s, cap)
    ensures Inv(Step(s, cap, a), cap)
  {
    if Enabled(s, a) {
      match a
      case Begin(batch) => BeginKeepsInv(s, cap, batch);
      case TryClaim(id) => ClaimKeepsInv(s, cap, id);
      case StoreTx(id) => StoreKeepsInv(s, cap, id);
      case Publish(id) => PublishKeepsInv(s, cap, id);
    }
  }

  lemma {:induction false} RunKeepsInv(cap: Capacity, actions: seq<Action>)
    ensures Inv(Run(cap, actions), cap)
  {
    if actions == [] {
      EmptyFollows(cap);
    } else {
      RunKeepsInv(cap, actions[..|actions| - 1]);
      StepKeepsInv(Run(cap, actions[..|actions| - 1]), cap, actions[|actions| - 1]);
    }
  }

  // ----- Main results, for every interleaving -----

  /** Two claims of one hash are at least cap.hash distinct other claims apart. */
  lemma DuplicateWindow(cap: Capacity, actions: seq<Action>, i: nat, j: nat)
    requires i < j < |Run(cap, actions).claims|
    requires Run(cap, actions).claims[i].hash == Run(cap, actions).claims[j].hash
    ensures var log := Run(cap, actions).claims;
            |Others(Between(log, i, j), log[i].hash)| >= cap.hash
  {
    RunKeepsInv(cap, actions);
    WindowBetweenClaims(cap, Run(cap, actions).claims, i, j);
  }

  /** No claim is lost or published twice: the claims are the published transactions plus
      what running calls still hold; once every call returned, just the published ones. */
  lemma ClaimsConserved(cap: Capacity, actions: seq<Action>)
    ensures var s := Run(cap, actions);
            multiset(s.claims) == multiset(Flatten(s.events)) + HeldByAll(s.calls)
    ensures var s := Run(cap, actions);
            (forall c :: c in s.calls ==> c.returned) ==> multiset(s.claims) == multiset(Flatten(s.events))
  {
    var s := Run(cap, actions);
    RunKeepsInv(cap, actions);
    if forall c :: c in s.calls ==> c.returned {
      ReturnedHoldNothing(s.calls);
    }
  }

  lemma {:induction false} ReturnedHoldNothing(calls: seq<Call>)
    requires forall c :: c in calls ==> c.returned
    ensures HeldByAll(calls) == multiset{}
  {
    if calls != [] {
      ReturnedHoldNothing(calls[..|calls| - 1]);
    }
  }

  /** Whatever the interleaving, a returned call reports one result per transaction and
      published exactly the accepted ones in batch order. */
  lemma CallsReportAcceptance(cap: Capacity, actions: seq<Action>, id: nat)
    requires id < |Run(cap, actions).calls| && Run(cap, actions).calls[id].returned
    ensures var c := Run(cap, actions).calls[id];
            |c.errs| == |c.batch| && c.out == Accepted(c.batch, c.errs)
    ensures var c := Run(cap, actions).calls[id]; c.out != [] ==> c.out in Run(cap, actions).events
  {
    RunKeepsInv(cap, actions);
    ReturnedCallsPublished(cap, actions);
    assert OutPublished(Run(cap, actions), id) && CallOk(Run(cap, actions).calls[id]);
  }

  /** A call's `begun` is the number of claims there were when it began. */
  lemma {:induction false} BegunAt(cap: Capacity, actions: seq<Action>, id: nat) returns (k: nat)
    requires id < |Run(cap, actions).calls|
    ensures k < |actions| && actions[k] == Begin(Run(cap, actions).calls[id].batch)
    ensures |Run(cap, actions[..k]).calls| == id
    ensures |Run(cap, actions[..k]).claims| == Run(cap, actions).calls[id].begun
    decreases |actions|
  {
    k := |actions| - 1;
    var before := actions[..k];
    if id < |Run(cap, before).calls| {
      CallStays(Run(cap, before), cap, actions[k], id);
      k := BegunAt(cap, before, id);
      assert before[..k] == actions[..k];
    }
  }

  lemma CallStays(s: State, cap: Capacity, a: Action, id: nat)
    requires s.caches.Shaped() && id < |s.calls|
    ensures var s' := Step(s, cap, a);
            && id < |s'.calls| && s'.calls[id].batch == s.calls[id].batch && s'.calls[id].begun == s.calls[id].begun
  {
  }

  /** The calls that have published, in the order in which they did. */
  function Publishers(cap: Capacity, actions: seq<Action>): seq<nat> {
    if actions == [] then []
    else
      var before, a := actions[..|actions| - 1], actions[|actions| - 1];
      Publishers(cap, before) + if a.Publish? && Enabled(Run(cap, before), a) then [a.id] else []
  }

  ghost predicate AreCalls(calls: seq<Call>, ids: seq<nat>) {
    forall k :: 0 <= k < |ids| ==> ids[k] < |calls|
  }

  /** What some calls accepted, leaving out those that accepted nothing. */
  function OutsOf(calls: seq<Call>, ids: seq<nat>): seq<seq<Transaction>>
    requires AreCalls(calls, ids)
  {
    if ids == [] then []
    else
      var n := |ids| - 1;
      OutsOf(calls, ids[..n]) + if calls[ids[n]].out == [] then [] else [calls[ids[n]].out]
  }

  lemma {:induction false} SameOuts(calls: seq<Call>, calls': seq<Call>, ids: seq<nat>)
    requires AreCalls(calls, ids) && AreCalls(calls', ids)
    requires forall k :: 0 <= k < |ids| ==> calls'[ids[k]].out == calls[ids[k]].out
    ensures OutsOf(calls', ids) == OutsOf(calls, ids)
    decreases |ids|
  {
    if ids != [] {
      SameOuts(calls, calls', ids[..|ids| - 1]);
    }
  }

  /** The calls that returned, each once. */
  ghost predicate Returned(calls: seq<Call>, ids: seq<nat>) {
    && Distinct(ids) && AreCalls(calls, ids) && (forall k :: 0 <= k < |ids| ==> calls[ids[k]].returned)
    && forall id :: 0 <= id < |calls| && calls[id].returned ==> id in ids
  }

  lemma PublishExact(calls: seq<Call>, id: nat, ids: seq<nat>)
    requires Returned(calls, ids) && id < |calls| && CanPublish(calls[id])
    ensures var calls' := calls[id := calls[id].(returned := true)];
            && Returned(calls', ids + [id])
            && OutsOf(calls', ids + [id]) == OutsOf(calls, ids) + if calls[id].out == [] then [] else [calls[id].out]
  {
    var calls', ids' := calls[id := calls[id].(returned := true)], ids + [id];
    assert ids'[..|ids|] == ids;
    assert forall k :: 0 <= k < |ids| ==> ids[k] != id;
    SameOuts(calls, calls', ids);
    forall x | 0 <= x < |calls'| && calls'[x].returned ensures x in ids' {
      if x != id {
        assert x in ids;
      }
    }
  }

  /** A step of a call that has not returned leaves the others' results alone. */
  lemma OthersExact(calls: seq<Call>, calls': seq<Call>, ids: seq<nat>)
    requires Returned(calls, ids) && |calls| <= |calls'|
    requires forall x :: 0 <= x < |calls| ==> calls'[x].returned == calls[x].returned
    requires forall x :: 0 <= x < |calls| && calls[x].returned ==> calls'[x].out == calls[x].out
    requires forall x :: |calls| <= x < |calls'| ==> !calls'[x].returned
    ensures Returned(calls', ids) && OutsOf(calls', ids) == OutsOf(calls, ids)
  {
    SameOuts(calls, calls', ids);
  }

  lemma OtherSteps(s: State, cap: Capacity, a: Action)
    requires s.caches.Shaped() && CallsOk(s.calls) && Enabled(s, a) && !a.Publish?
    ensures var calls, calls' := s.calls, Step(s, cap, a).calls;
            && Step(s, cap, a).events == s.events && |calls| <= |calls'|
            && (forall x :: 0 <= x < |calls| ==> calls'[x].returned == calls[x].returned)
            && (forall x :: 0 <= x < |calls| && calls[x].returned ==> calls'[x].out == calls[x].out)
            && forall x :: |calls| <= x < |calls'| ==> !calls'[x].returned
  {
    if a.StoreTx? {
      assert CallOk(s.calls[a.id]);
    }
  }

  /** The events are what these calls accepted, and no other call has returned. */
  ghost predicate EventsExact(s: State, ids: seq<nat>) {
    Returned(s.calls, ids) && s.events == OutsOf(s.calls, ids)
  }

  lemma StepExact(s: State, cap: Capacity, a: Action, ids: seq<nat>)
    requires s.caches.Shaped() && CallsOk(s.calls) && EventsExact(s, ids)
    ensures EventsExact(Step(s, cap, a), ids + if a.Publish? && Enabled(s, a) then [a.id] else [])
  {
    assert ids + [] == ids && s.events + [] == s.events;
    if Enabled(s, a) {
      if a.Publish? {
        PublishExact(s.calls, a.id, ids);
      } else {
        OtherSteps(s, cap, a);
        OthersExact(s.calls, Step(s, cap, a).calls, ids);
      }
    }
  }

  /** In every run the events are what the returned calls accepted: each of these calls
      published once, in the order of these steps, and nothing if it accepted nothing. */
  lemma {:induction false} EventsAreOuts(cap: Capacity, actions: seq<Action>)
    ensures EventsExact(Run(cap, actions), Publishers(cap, actions))
    decreases |actions|
  {
    if actions != [] {
      var before := actions[..|actions| - 1];
      EventsAreOuts(cap, before);
      RunKeepsInv(cap, before);
      StepExact(Run(cap, before), cap, actions[|actions| - 1], Publishers(cap, before));
    }
  }

  ghost predicate OutPublished(s: State, i: nat)
    requires i < |s.calls|
  {
    s.calls[i].returned && s.calls[i].out != [] ==> s.calls[i].out in s.events
  }

  ghost predicate AllPublished(s: State) {
    forall i :: 0 <= i < |s.calls| ==> OutPublished(s, i)
  }

  lemma StepKeepsPublished(s: State, cap: Capacity, a: Action)
    requires Inv(s, cap) && AllPublished(s)
    ensures AllPublished(Step(s, cap, a))
  {
    var s' := Step(s, cap, a);
    forall i | 0 <= i < |s'.calls| && s'.calls[i].returned ensures OutPublished(s', i) {
      assert i < |s.calls| ==> CallOk(s.calls[i]);
      ReturnsOnlyByPublishing(s, cap, a, i);
      assert OutPublished(s, i);
      EventsStay(s, cap, a, s.calls[i].out);
    }
  }

  lemma EventsStay(s: State, cap: Capacity, a: Action, e: seq<Transaction>)
    requires s.caches.Shaped()
    ensures e in s.events ==> e in Step(s, cap, a).events
  {
  }

  /** A returned call had returned before, unchanged since, or has just published. */
  lemma ReturnsOnlyByPublishing(s: State, cap: Capacity, a: Action, i: nat)
    requires s.caches.Shaped() && i < |Step(s, cap, a).calls| && Step(s, cap, a).calls[i].returned
    requires i < |s.calls| ==> CallOk(s.calls[i])
    ensures i < |s.calls|
    ensures var c := Step(s, cap, a).calls[i];
            (s.calls[i].returned && c == s.calls[i]) || c.out == [] || c.out in Step(s, cap, a).events
  {
    if a.Publish? && Enabled(s, a) && a.id == i && s.calls[i].out != [] {
      assert Step(s, cap, a).events[|s.events|] == s.calls[i].out;
    }
  }

  lemma {:induction false} ReturnedCallsPublished(cap: Capacity, actions: seq<Action>)
    ensures AllPublished(Run(cap, actions))
  {
    if actions != [] {
      RunKeepsInv(cap, actions[..|actions| - 1]);
      ReturnedCallsPublished(cap, actions[..|actions| - 1]);
      StepKeepsPublished(Run(cap, actions[..|actions| - 1]), cap, actions[|actions| - 1]);
    }
  }

  /** In any reachable state a call accepts its next transaction if and only if it has a
      recipient and its hash is not among the last cap.hash claims of its bucket. */
  lemma ClaimDecision(cap: Capacity, actions: seq<Action>, id: nat)
    requires id < |Run(cap, actions).calls| && CanClaim(Run(cap, actions).calls[id])
    ensures var s, s' := Run(cap, actions), Run(cap, actions + [TryClaim(id)]);
            var tx, known := Current(s.calls[id]), RecentlyClaimed(cap, s.claims, Current(s.calls[id]).hash);
            s'.calls[id].errs == s.calls[id].errs
              + [if tx.to.None? then Some(IsCreateContract) else if known then Some(AlreadyKnown) else None]
            && (s'.claims == if tx.to.Some? && !known then s.claims + [tx] else s.claims)
  {
    RunKeepsInv(cap, actions);
    assert (actions + [TryClaim(id)])[..|actions|] == actions;
  }

  /** `rounds` claim-and-store rounds of one call, with no other call in between. */
  function Solo(s: State, cap: Capacity, id: nat, rounds: nat): (s': State)
    requires s.caches.Shaped()
    ensures s'.caches.Shaped()
  {
    if rounds == 0 then s
    else Step(Step(Solo(s, cap, id, rounds - 1), cap, TryClaim(id)), cap, StoreTx(id))
  }

  lemma RoundIsAdmitOne(s: State, cap: Capacity, id: nat)
    requires s.caches.Shaped() && id < |s.calls| && CanClaim(s.calls[id])
    ensures var c, s' := s.calls[id], Step(Step(s, cap, TryClaim(id)), cap, StoreTx(id));
            var a := AdmitOne(Admission(s.caches, c.errs, c.out), cap, Current(c));
            && s'.caches == a.caches && s'.events == s.events
            && s'.calls == s.calls[id := c.(errs := a.errs, out := a.out)]
            && s'.claims == s.claims + a.out[|c.out|..]
  {
    var s1 := ClaimStep(s, cap, id);
    assert Step(s, cap, TryClaim(id)) == s1;
    if s1.claims == s.claims {
      assert !Enabled(s1, StoreTx(id));
    } else {
      assert Step(s1, cap, StoreTx(id)) == StoreStep(s1, cap, id);
    }
  }

  /** q is p after call `id` worked through a part of its batch with the outcome `a`. */
  ghost predicate RanAlone(p: State, q: State, id: nat, a: Admission)
    requires id < |p.calls|
  {
    && q.caches == a.caches && q.events == p.events && q.claims == p.claims + a.out
    && q.calls == p.calls[id := p.calls[id].(errs := a.errs, out := a.out)]
  }

  lemma RanAloneOneMore(p: State, q: State, cap: Capacity, id: nat, a: Admission)
    requires q.caches.Shaped() && id < |p.calls| && RanAlone(p, q, id, a) && CanClaim(q.calls[id])
    ensures RanAlone(p, Step(Step(q, cap, TryClaim(id)), cap, StoreTx(id)), id, AdmitOne(a, cap, Current(q.calls[id])))
  {
    RoundIsAdmitOne(q, cap, id);
    var b := AdmitOne(a, cap, Current(q.calls[id]));
    assert p.claims + a.out + b.out[|a.out|..] == p.claims + b.out;
  }

  /** A call that no other call interrupts does exactly what the serialised AddRemotes does. */
  lemma {:induction false} SoloCallIsAdmit(p: State, cap: Capacity, id: nat, rounds: nat)
    requires p.caches.Shaped() && id < |p.calls| && rounds <= |p.calls[id].batch|
    requires p.calls[id] == Call(p.calls[id].batch, [], [], None, false, p.calls[id].begun)
    ensures var a := Admit(p.caches, cap, p.calls[id].batch[..rounds]);
            |a.errs| == rounds && RanAlone(p, Solo(p, cap, id, rounds), id, a)
    decreases rounds
  {
    var batch := p.calls[id].batch;
    if rounds > 0 {
      SoloCallIsAdmit(p, cap, id, rounds - 1);
      AdmitPrefix(p.caches, cap, batch, rounds - 1);
      RanAloneOneMore(p, Solo(p, cap, id, rounds - 1), cap, id, Admit(p.caches, cap, batch[..rounds - 1]));
    }
  }

  // ----- When a published batch repeats no hash -----

  /** `part` is `whole` with some elements left out. */
  ghost predicate Picked(part: seq<Transaction>, whole: seq<Transaction>) {
    if whole == [] then part == []
    else
      var n := |whole| - 1;
      || Picked(part, whole[..n])
      || (part != [] && part[|part| - 1] == whole[n] && Picked(part[..|part| - 1], whole[..n]))
  }

  lemma PickedLonger(part: seq<Transaction>, whole: seq<Transaction>, x: Transaction)
    requires Picked(part, whole)
    ensures Picked(part, whole + [x]) && Picked(part + [x], whole + [x])
  {
    assert (whole + [x])[..|whole|] == whole && (part + [x])[..|part|] == part;
  }

  lemma {:induction false} PickedHasNoRepeats(part: seq<Transaction>, whole: seq<Transaction>)
    requires Picked(part, whole) && Distinct(Hashes(whole))
    ensures Distinct(Hashes(part)) && forall tx :: tx in part ==> tx in whole
  {
    if whole != [] {
      var n := |whole| - 1;
      assert Hashes(whole)[n] == whole[n].hash;
      assert forall i :: 0 <= i < n ==> Hashes(whole[..n])[i] == Hashes(whole)[i];
      if Picked(part, whole[..n]) {
        PickedHasNoRepeats(part, whole[..n]);
      } else {
        var m := |part| - 1;
        PickedHasNoRepeats(part[..m], whole[..n]);
        forall i | 0 <= i < m ensures Hashes(part)[i] != Hashes(part)[m] {
          assert part[..m][i] in whole[..n];
          var k :| 0 <= k < n && whole[k] == part[i];
          assert Hashes(whole)[k] != Hashes(whole)[n];
        }
        assert forall i :: 0 <= i < m ==> Hashes(part[..m])[i] == Hashes(part)[i];
        assert part == part[..m] + [whole[n]];
      }
    }
  }

  /** All a call accepted so far, in order. */
  function Mine(c: Call): seq<Transaction> {
    if c.claimed.Some? then c.out + [c.claimed.value] else c.out
  }

  /** A call's claims are among those made since it began. */
  ghost predicate SinceBegun(claims: seq<Transaction>, c: Call) {
    c.begun <= |claims| && Picked(Mine(c), claims[c.begun..])
  }

  ghost predicate AllSinceBegun(s: State) {
    forall i :: 0 <= i < |s.calls| ==> SinceBegun(s.claims, s.calls[i])
  }

  lemma SinceBegunLonger(claims: seq<Transaction>, c: Call, tx: Transaction)
    requires SinceBegun(claims, c)
    ensures SinceBegun(claims + [tx], c)
    ensures c.claimed.None? ==> Picked(Mine(c) + [tx], (claims + [tx])[c.begun..])
  {
    assert (claims + [tx])[c.begun..] == claims[c.begun..] + [tx];
    PickedLonger(Mine(c), claims[c.begun..], tx);
  }

  lemma StepKeepsSinceBegun(s: State, cap: Capacity, a: Action)
    requires s.caches.Shaped() && AllSinceBegun(s)
    ensures AllSinceBegun(Step(s, cap, a))
  {
    var s' := Step(s, cap, a);
    forall i | 0 <= i < |s'.calls| ensures SinceBegun(s'.claims, s'.calls[i]) {
      if i < |s.calls| {
        CallSinceBegun(s, cap, a, i);
      } else {
        assert s'.claims[|s.claims|..] == [];
      }
    }
  }

  lemma CallSinceBegun(s: State, cap: Capacity, a: Action, i: nat)
    requires s.caches.Shaped() && i < |s.calls| && SinceBegun(s.claims, s.calls[i])
    ensures SinceBegun(Step(s, cap, a).claims, Step(s, cap, a).calls[i])
  {
    if a.TryClaim? && Enabled(s, a) {
      ClaimSinceBegun(s, cap, a.id, i);
    }
  }

  lemma ClaimSinceBegun(s: State, cap: Capacity, id: nat, i: nat)
    requires s.caches.Shaped() && id < |s.calls| && CanClaim(s.calls[id])
    requires i < |s.calls| && SinceBegun(s.claims, s.calls[i])
    ensures SinceBegun(ClaimStep(s, cap, id).claims, ClaimStep(s, cap, id).calls[i])
  {
    SinceBegunLonger(s.claims, s.calls[i], Current(s.calls[id]));
  }

  lemma {:induction false} RunKeepsSinceBegun(cap: Capacity, actions: seq<Action>)
    ensures AllSinceBegun(Run(cap, actions))
  {
    if actions != [] {
      RunKeepsSinceBegun(cap, actions[..|actions| - 1]);
      StepKeepsSinceBegun(Run(cap, actions[..|actions| - 1]), cap, actions[|actions| - 1]);
    }
  }

  lemma FewClaimsNoRepeats(cap: Capacity, s: State, id: nat)
    requires Suppressed(cap, s.claims) && AllSinceBegun(s)
    requires id < |s.calls| && |s.claims| - s.calls[id].begun <= cap.hash + 1
    ensures Distinct(Hashes(Mine(s.calls[id])))
  {
    var c := s.calls[id];
    assert SinceBegun(s.claims, c);
    var before, since := s.claims[..c.begun], s.claims[c.begun..];
    assert s.claims == before + since;
    TailHasNoRepeats(cap, before, since);
    PickedHasNoRepeats(Mine(c), since);
  }

  /** In every run, a call's batch repeats no hash while at most cap.hash + 1 claims, its own
      and those of every other call, have been made since it began. */
  lemma ShortCallHasNoRepeats(cap: Capacity, actions: seq<Action>, id: nat)
    requires id < |Run(cap, actions).calls|
    requires |Run(cap, actions).claims| - Run(cap, actions).calls[id].begun <= cap.hash + 1
    ensures Distinct(Hashes(Mine(Run(cap, actions).calls[id])))
  {
    RunKeepsInv(cap, actions);
    RunKeepsSinceBegun(cap, actions);
    FewClaimsNoRepeats(cap, Run(cap, actions), id);
  }

  // ----- Get and Has under interleaving -----

  /** Every cached transaction has a cached hash: what a caller of Get and Has expects. */
  ghost predicate Nested(c: Caches)
    requires c.Shaped()
  {
    forall h: Hash :: HasTx(c, h) ==> Has(c, h)
  }

  /** What a call would have to check before its step to keep the caches nested: a store,
      that its hash is still cached; a claim, that the hash it would evict has no cached
      transaction. */
  predicate KeepsNesting(s: State, cap: Capacity, a: Action)
    requires s.caches.Shaped() && cap.Valid()
  {
    match a
    case StoreTx(id) =>
      Enabled(s, a) ==> Has(s.caches, s.calls[id].claimed.value.hash)
    case TryClaim(id) =>
      Enabled(s, a) && ClaimStep(s, cap, id).claims != s.claims ==>
        var ring := s.caches.hashes[Bucket(Current(s.calls[id]).hash)];
        |ring| == cap.hash ==> !HasTx(s.caches, ring[0].key)
    case _ => true
  }

  lemma StoreKeepsNestingIff(c: Caches, cap: Capacity, tx: Transaction)
    requires c.Shaped() && 1 <= cap.tx && Nested(c)
    ensures Nested(Store(c, cap, tx)) <==> Has(c, tx.hash)
  {
    var c', b := Store(c, cap, tx), Bucket(tx.hash);
    assert HasTx(c', tx.hash) by {
      if !HasKey(c.txs[b], tx.hash) {
        assert c'.txs[b][|c'.txs[b]| - 1].key == tx.hash;
      }
    }
    assert forall h: Hash :: Has(c', h) == Has(c, h);
    forall h: Hash | h != tx.hash && HasTx(c', h) ensures HasTx(c, h) {
      if Bucket(h) == b {
        assert c'.txs[b] == Put(c.txs[b], cap.tx, tx.hash, tx);
        StoredBefore(c.txs[b], cap.tx, tx, h);
      }
    }
  }

  lemma StoredBefore(ring: TxRing, cap: nat, tx: Transaction, h: Hash)
    requires h != tx.hash && HasKey(Put(ring, cap, tx.hash, tx), h)
    ensures HasKey(ring, h)
  {
    var ring' := Put(ring, cap, tx.hash, tx);
    var i :| 0 <= i < |ring'| && ring'[i].key == h;
    assert ring' != ring ==> ring[i + |ring| + 1 - |ring'|].key == h;
  }

  /** The hashes of a full ring after a claim: all but the oldest, and the new one. */
  lemma ClaimEvictsOldest(ring: HashRing, cap: nat, h: Hash, x: Hash)
    requires 1 <= cap && DistinctKeys(ring) && |ring| <= cap && !HasKey(ring, h)
    ensures HasKey(Put(ring, cap, h, ()), x)
            <==> x == h || (HasKey(ring, x) && !(|ring| == cap && x == ring[0].key))
  {
    var ring' := Put(ring, cap, h, ());
    var gone := if |ring| == cap then 1 else 0;
    assert ring' == ring[gone..] + [Entry(h, ())];
    if i :| 0 <= i < |ring'| && ring'[i].key == x {
      if i < |ring'| - 1 {
        assert ring[i + gone].key == x;
      }
    }
    if x == h {
      assert ring'[|ring'| - 1].key == x;
    }
    if i :| gone <= i < |ring| && ring[i].key == x {
      assert ring'[i - gone].key == x;
    }
  }

  lemma ClaimKeepsNestingIff(c: Caches, cap: Capacity, log: seq<Transaction>, h: Hash)
    requires 1 <= cap.hash && HashesFollow(c, cap, log) && Suppressed(cap, log) && Nested(c) && !Has(c, h)
    ensures var ring := c.hashes[Bucket(h)];
            Nested(Claim(c, cap, h)) <==> (|ring| == cap.hash ==> !HasTx(c, ring[0].key))
  {
    var b := Bucket(h);
    var ring, c' := c.hashes[b], Claim(c, cap, h);
    RecentClaimsDistinct(cap, log, b);
    if ring != [] {
      var k := ClaimedAt(log, b, |HashClaims(log, b)| - |ring|);
      assert Bucket(ring[0].key) == b;
      ClaimEvictsOldest(ring, cap.hash, h, ring[0].key);
    }
    forall x: Hash | HasTx(c, x) && !(|ring| == cap.hash && x == ring[0].key) ensures Has(c', x) {
      assert Has(c, x);
      ClaimEvictsOldest(ring, cap.hash, h, x);
    }
    assert forall x: Hash :: HasTx(c', x) == HasTx(c, x);
  }

  /** From any reachable state with nested caches, a step leaves them nested if and only
      if the check above passes. */
  lemma NestingSurvivesIff(cap: Capacity, actions: seq<Action>, a: Action)
    requires cap.Valid() && Nested(Run(cap, actions).caches)
    ensures Nested(Run(cap, actions + [a]).caches) <==> KeepsNesting(Run(cap, actions), cap, a)
  {
    var s := Run(cap, actions);
    assert (actions + [a])[..|actions|] == actions;
    RunKeepsInv(cap, actions);
    var s' := Step(s, cap, a);
    if a.StoreTx? && Enabled(s, a) {
      StoreKeepsNestingIff(s.caches, cap, s.calls[a.id].claimed.value);
    } else if a.TryClaim? && Enabled(s, a) && s'.claims != s.claims {
      ClaimKeepsNestingIff(s.caches, cap, s.claims, Current(s.calls[a.id]).hash);
    }
  }

  lemma RunOne(cap: Capacity, actions: seq<Action>, a: Action) returns (next: seq<Action>, s: State)
    ensures next == actions + [a] && s == Run(cap, next) == Step(Run(cap, actions), cap, a)
  {
    next := actions + [a];
    assert next[..|actions|] == actions;
    s := Run(cap, next);
  }
}
