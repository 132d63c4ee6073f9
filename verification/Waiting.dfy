/** Which challenges wait, read off the history exactly, under races, eviction and expiry:
    those remembered for a height since the last event that lost that height's list. Each
    clear holds the list as it was when it read, and a removal answers just that. */
module Waiting {
  import opened Types
  import opened Ring
  import opened Lru
  import opened ChallengePool
  import opened ChallengeRelay

  /** An event with which the challenges waiting for n are gone. */
  predicate Loses(e: Event, n: Uint64) {
    e == Evicted(PendingKey(n)) || e == Expired(PendingKey(n)) || (e.Removed? && e.height == n)
  }

  predicate RemembersFor(e: Event, n: Uint64) {
    e.Remembered? && e.height == n
  }

  /** The positions of the challenges waiting for n, in arrival order. */
  function WaitsAt(log: seq<Event>, n: Uint64): (at: seq<nat>)
    ensures forall x :: 0 <= x < |at| ==> at[x] < |log| && RemembersFor(log[at[x]], n)
  {
    if log == [] then []
    else
      var m := |log| - 1;
      if Loses(log[m], n) then []
      else WaitsAt(log[..m], n) + if RemembersFor(log[m], n) then [m] else []
  }

  /** The challenges at some positions. */
  function AsChallenges(log: seq<Event>, at: seq<nat>, n: Uint64): seq<Challenge>
    requires forall x :: 0 <= x < |at| ==> at[x] < |log| && RemembersFor(log[at[x]], n)
  {
    seq(|at|, x requires 0 <= x < |at| && at[x] < |log| && RemembersFor(log[at[x]], n) => Challenge(log[at[x]].peer, n))
  }

  lemma {:induction false} WaitsQuiet(log: seq<Event>, more: seq<Event>, n: Uint64)
    requires forall e :: e in more ==> !Loses(e, n) && !RemembersFor(e, n)
    ensures WaitsAt(log + more, n) == WaitsAt(log, n)
    decreases |more|
  {
    if more == [] {
      assert log + more == log;
    } else {
      var m := |more| - 1;
      WaitsQuiet(log, more[..m], n);
      assert (log + more)[..|log + more| - 1] == log + more[..m];
    }
  }

  lemma WaitsOneMore(log: seq<Event>, e: Event, n: Uint64)
    ensures WaitsAt(log + [e], n)
            == if Loses(e, n) then [] else WaitsAt(log, n) + if RemembersFor(e, n) then [|log|] else []
  {
    assert (log + [e])[..|log|] == log;
  }

  lemma WaitsLost(log: seq<Event>, e: Event, more: seq<Event>, n: Uint64)
    requires Loses(e, n) && forall x :: x in more ==> !Loses(x, n) && !RemembersFor(x, n)
    ensures WaitsAt(log + ([e] + more), n) == []
  {
    WaitsOneMore(log, e, n);
    WaitsQuiet(log + [e], more, n);
    assert log + ([e] + more) == log + [e] + more;
  }

  /** Waiting means remembered and not lost since. */
  lemma {:induction false} WaitsMeaning(log: seq<Event>, i: nat, n: Uint64)
    ensures i in WaitsAt(log, n) <==>
              i < |log| && RemembersFor(log[i], n) && forall j :: i < j < |log| ==> !Loses(log[j], n)
    decreases |log|
  {
    if log != [] {
      var m := |log| - 1;
      WaitsMeaning(log[..m], i, n);
      assert i in WaitsAt(log, n)
        <==> !Loses(log[m], n) && (i in WaitsAt(log[..m], n) || (i == m && RemembersFor(log[m], n)));
    }
  }

  // ----- The pending list is what waits -----

  ghost predicate PendingWaits(s: State, n: Uint64) {
    PendingAt(s.store, n) == AsChallenges(s.log, WaitsAt(s.log, n), n)
  }

  lemma QuietKeepsWaits(s: State, s': State, more: seq<Event>, n: Uint64)
    requires PendingWaits(s, n) && s'.log == s.log + more && PendingAt(s'.store, n) == PendingAt(s.store, n)
    requires forall e :: e in more ==> !Loses(e, n) && !RemembersFor(e, n)
    ensures PendingWaits(s', n)
  {
    WaitsQuiet(s.log, more, n);
  }

  lemma LossKeepsWaits(s: State, s': State, e: Event, more: seq<Event>, n: Uint64)
    requires s'.log == s.log + ([e] + more) && PendingAt(s'.store, n) == []
    requires Loses(e, n) && forall x :: x in more ==> !Loses(x, n) && !RemembersFor(x, n)
    ensures PendingWaits(s', n)
  {
    WaitsLost(s.log, e, more, n);
  }

  lemma OtherKey(m: Uint64, n: Uint64)
    ensures PendingKey(m) == PendingKey(n) <==> m == n
  {
    if PendingText(m) == PendingText(n) {
      PendingTextInjective(m, n);
    }
  }

  /** The evicted key is another one than the inserted, and its entry is gone. */
  lemma VictimGone(s: Store, cap: nat, k: Key, v: Value, x: Key)
    requires 1 <= cap && Bounded(s, cap) && Victim(s, cap, k) == Some(x)
    ensures x != k && Lookup(Insert(s, cap, k, v), x).None?
  {
    LookupIsHasKey(s, k);
    LookupIsHasKey(s, x);
    assert s[cap - 1].key == x;
    AheadCountsPosition(s, x);
    LastPosition(s, x);
    AheadIsPresent(s, x, k);
    InsertKeepsOtherIff(s, cap, k, v, x);
  }

  lemma AheadIsPresent(s: Store, x: Key, k: Key)
    ensures k in Ahead(s, x) ==> HasKey(s, k)
  {
    if k in Ahead(s, x) {
      var i := AheadComesFirst(s, x, k);
      assert s[i].key == k;
    }
  }

  lemma {:induction false} LastPosition(s: Store, x: Key)
    requires s != [] && DistinctKeys(s) && s[|s| - 1].key == x
    ensures Position(s, x) == |s| - 1
    decreases |s|
  {
    if |s| > 1 {
      LastPosition(s[1..], x);
    }
  }

  /** Inserting a key other than n's loses n's list exactly when it evicts it. */
  lemma InsertWaits(s: State, cap: nat, k: Key, v: Value, n: Uint64)
    requires 1 <= cap && Bounded(s.store, cap) && PendingWaits(s, n) && k != PendingKey(n)
    ensures PendingWaits(InsertLogged(s, cap, k, v), n)
  {
    var s', note := InsertLogged(s, cap, k, v), Evictions(s.store, cap, k);
    if Victim(s.store, cap, k) == Some(PendingKey(n)) {
      VictimGone(s.store, cap, k, v, PendingKey(n));
      assert note == [Evicted(PendingKey(n))] + [];
      LossKeepsWaits(s, s', Evicted(PendingKey(n)), [], n);
    } else {
      InsertPending(s.store, cap, k, v, n);
      QuietKeepsWaits(s, s', note, n);
    }
  }

  lemma RememberWaits(s: State, cap: nat, p: nat, n: Uint64)
    requires 1 <= cap && Good(s.store, cap) && PendingWaits(s, n) && p < |s.peers| && s.peers[p].Reflected?
    ensures PendingWaits(RememberStep(s, cap, p), n)
  {
    var m := s.peers[p].height;
    if m == n {
      RememberHereWaits(s, cap, p);
    } else {
      var k, v := PendingKey(m), Pending(PendingAt(s.store, m) + [Challenge(p, m)]);
      OtherKey(m, n);
      InsertWaits(s, cap, k, v, n);
      QuietKeepsWaits(InsertLogged(s, cap, k, v), RememberStep(s, cap, p), [Remembered(p, m)], n);
    }
  }

  lemma RememberHereWaits(s: State, cap: nat, p: nat)
    requires p < |s.peers| && s.peers[p].Reflected? && PendingWaits(s, s.peers[p].height)
    requires 1 <= cap && Good(s.store, cap)
    ensures PendingWaits(RememberStep(s, cap, p), s.peers[p].height)
  {
    var n, s' := s.peers[p].height, RememberStep(s, cap, p);
    var k, v := PendingKey(n), Pending(PendingAt(s.store, n) + [Challenge(p, n)]);
    var note := Evictions(s.store, cap, k);
    NoteAboutOthers(s.store, cap, n);
    InsertPending(s.store, cap, k, v, n);
    assert s'.log == s.log + note + [Remembered(p, n)];
    OneMoreWaiting(s.log, note, p, n);
  }

  lemma OneMoreWaiting(log: seq<Event>, note: seq<Event>, p: nat, n: Uint64)
    requires forall e :: e in note ==> !Loses(e, n) && !RemembersFor(e, n)
    ensures var all := log + note + [Remembered(p, n)];
            AsChallenges(all, WaitsAt(all, n), n) == AsChallenges(log, WaitsAt(log, n), n) + [Challenge(p, n)]
  {
    WaitsQuiet(log, note, n);
    WaitsOneMore(log + note, Remembered(p, n), n);
  }

  lemma NoteAboutOthers(s: Store, cap: nat, n: Uint64)
    ensures forall e :: e in Evictions(s, cap, PendingKey(n)) ==> !Loses(e, n) && !RemembersFor(e, n)
  {
    LookupIsHasKey(s, PendingKey(n));
  }

  lemma RemoveWaits(s: State, p: nat, n: Uint64)
    requires PendingWaits(s, n) && p < |s.peers| && s.peers[p].Clearing?
    ensures PendingWaits(RemoveStep(s, p), n)
  {
    var c, s' := s.peers[p], RemoveStep(s, p);
    var m := Low64(c.header.number);
    OtherKey(m, n);
    WithoutPending(s.store, PendingKey(m), n);
    if m == n {
      LossKeepsWaits(s, s', Removed(n, p), Replies(c.found, c.header), n);
    } else {
      QuietKeepsWaits(s, s', [Removed(m, p)] + Replies(c.found, c.header), n);
    }
  }

  lemma ExpireWaits(s: State, cap: nat, k: Key, n: Uint64)
    requires PendingWaits(s, n) && Enabled(s, Expire(k))
    ensures PendingWaits(Step(s, cap, Expire(k)), n)
  {
    var s' := Step(s, cap, Expire(k));
    WithoutPending(s.store, k, n);
    if k == PendingKey(n) {
      assert [Expired(k)] + [] == [Expired(k)];
      LossKeepsWaits(s, s', Expired(k), [], n);
    } else {
      QuietKeepsWaits(s, s', [Expired(k)], n);
    }
  }

  lemma StepWaits(s: State, cap: nat, a: Action, n: Uint64)
    requires 1 <= cap && Good(s.store, cap) && PendingWaits(s, n)
    ensures PendingWaits(Step(s, cap, a), n)
  {
    if Enabled(s, a) {
      match a
      case RememberIt(p) => RememberWaits(s, cap, p, n);
      case RemoveIt(p) => RemoveWaits(s, p, n);
      case CacheHeader(h) => InsertWaits(s, cap, Height(Low64(h.number)), Known(h), n);
      case Expire(k) => ExpireWaits(s, cap, k, n);
      case _ => OthersKeepWaits(s, cap, a, n);
    }
  }

  lemma OthersKeepWaits(s: State, cap: nat, a: Action, n: Uint64)
    requires PendingWaits(s, n) && Enabled(s, a) && (a.UseHeader? || a.Receive? || a.Ask? || a.Join?)
    ensures PendingWaits(Step(s, cap, a), n)
  {
    if a.UseHeader? {
      TouchPending(s.store, a.height, n);
    }
    NoteIsLogged(s, cap, a);
    QuietKeepsWaits(s, Step(s, cap, a), Note(s, cap, a), n);
  }

  /** In every run, for every height, the pending list is exactly the challenges remembered for
      it since its list was last evicted, expired or removed, in arrival order. */
  lemma {:induction false} PendingIsWaiting(cap: nat, actions: seq<Action>, n: Uint64)
    requires 1 <= cap
    ensures PendingWaits(Run(cap, actions), n)
    decreases |actions|
  {
    if actions != [] {
      PendingIsWaiting(cap, actions[..|actions| - 1], n);
      RunAsked(cap, actions[..|actions| - 1]);
      StepWaits(Run(cap, actions[..|actions| - 1]), cap, actions[|actions| - 1], n);
    }
  }

  // ----- What a clear has read -----

  predicate ByPeer(e: Event, p: nat) {
    match e
    case Asked(q, _) => q == p
    case Remembered(q, _) => q == p
    case Received(q, _) => q == p
    case Removed(_, q) => q == p
    case _ => false
  }

  /** The positions that waited for the height of the last header p received, at that time. */
  function ReadBy(log: seq<Event>, p: nat): (at: seq<nat>)
    ensures forall x :: 0 <= x < |at| ==> at[x] < |log|
  {
    if log == [] then []
    else
      var m := |log| - 1;
      if log[m].Received? && log[m].peer == p then WaitsAt(log[..m], Low64(log[m].header.number))
      else ReadBy(log[..m], p)
  }

  /** p received a header of height n. */
  predicate Receives(e: Event, p: nat, n: Uint64) {
    e.Received? && e.peer == p && Low64(e.header.number) == n
  }

  /** p received a header of height n at position r and has done nothing since. */
  ghost predicate ClearFrom(log: seq<Event>, p: nat, n: Uint64, r: nat) {
    && r < |log| && Receives(log[r], p, n) && ReadBy(log, p) == WaitsAt(log[..r], n)
    && forall k :: r < k < |log| ==> !ByPeer(log[k], p)
  }

  lemma {:induction false} ReadQuiet(log: seq<Event>, more: seq<Event>, p: nat)
    requires forall e :: e in more ==> !ByPeer(e, p)
    ensures ReadBy(log + more, p) == ReadBy(log, p)
    decreases |more|
  {
    if more == [] {
      assert log + more == log;
    } else {
      var m := |more| - 1;
      ReadQuiet(log, more[..m], p);
      assert more[m] in more;
      ReadOneMore(log + more[..m], more[m], p);
      assert log + more == log + more[..m] + [more[m]];
    }
  }

  lemma ReadOneMore(log: seq<Event>, e: Event, p: nat)
    requires !ByPeer(e, p)
    ensures ReadBy(log + [e], p) == ReadBy(log, p)
  {
    assert (log + [e])[..|log|] == log;
  }

  lemma ClearContinues(log: seq<Event>, more: seq<Event>, p: nat, n: Uint64, r: nat)
    requires ClearFrom(log, p, n, r) && forall e :: e in more ==> !ByPeer(e, p)
    ensures ClearFrom(log + more, p, n, r)
  {
    ReadQuiet(log, more, p);
    assert (log + more)[..r] == log[..r];
    assert forall k :: |log| <= k < |log + more| ==> (log + more)[k] in more;
  }

  lemma ClearStarts(log: seq<Event>, p: nat, header: Header)
    ensures ClearFrom(log + [Received(p, header)], p, Low64(header.number), |log|)
  {
    assert (log + [Received(p, header)])[..|log|] == log;
  }

  /** A clear in progress holds the list as it was at its read. */
  ghost predicate HoldsItsRead(s: State, p: nat)
    requires p < |s.peers|
  {
    s.peers[p].Clearing? ==>
      var n := Low64(s.peers[p].header.number);
      exists r: nat :: ClearFrom(s.log, p, n, r) && HasRead(s, p, n, r)
  }

  ghost predicate HasRead(s: State, p: nat, n: Uint64, r: nat)
    requires p < |s.peers| && s.peers[p].Clearing? && r < |s.log|
  {
    && s.log[r] == Received(p, s.peers[p].header)
    && s.peers[p].found == AsChallenges(s.log[..r], WaitsAt(s.log[..r], n), n)
  }

  predicate Acts(a: Action, p: nat) {
    match a
    case Ask(q, _) => q == p
    case RememberIt(q) => q == p
    case Receive(q, _) => q == p
    case RemoveIt(q) => q == p
    case _ => false
  }

  lemma OthersAreQuiet(s: State, cap: nat, a: Action, p: nat)
    requires Enabled(s, a) && !Acts(a, p)
    ensures forall e :: e in Note(s, cap, a) ==> !ByPeer(e, p)
  {
  }

  lemma OthersKeepRead(s: State, cap: nat, a: Action, p: nat)
    requires Enabled(s, a) && !Acts(a, p) && p < |s.peers| && HoldsItsRead(s, p)
    ensures HoldsItsRead(Step(s, cap, a), p)
  {
    NoteIsLogged(s, cap, a);
    OthersAreQuiet(s, cap, a, p);
    if s.peers[p].Clearing? {
      var n := Low64(s.peers[p].header.number);
      var r: nat :| ClearFrom(s.log, p, n, r) && HasRead(s, p, n, r);
      ClearContinues(s.log, Note(s, cap, a), p, n, r);
      assert (s.log + Note(s, cap, a))[..r] == s.log[..r];
      assert HasRead(Step(s, cap, a), p, n, r);
    }
  }

  lemma ReadHolds(s: State, p: nat, header: Header)
    requires p < |s.peers| && s.peers[p].Idle? && PendingWaits(s, Low64(header.number))
    ensures HoldsItsRead(ReadStep(s, p, header), p)
  {
    var n, s' := Low64(header.number), ReadStep(s, p, header);
    ClearStarts(s.log, p, header);
    assert s'.log[..|s.log|] == s.log;
    if s'.peers[p].Clearing? {
      assert HasRead(s', p, n, |s.log|);
    }
  }

  lemma StepKeepsRead(s: State, cap: nat, a: Action, p: nat)
    requires p < |Step(s, cap, a).peers| && (p < |s.peers| ==> HoldsItsRead(s, p))
    requires forall n: Uint64 :: PendingWaits(s, n)
    ensures HoldsItsRead(Step(s, cap, a), p)
  {
    if Enabled(s, a) && p < |s.peers| {
      if !Acts(a, p) {
        OthersKeepRead(s, cap, a, p);
      } else if a.Receive? {
        ReadHolds(s, p, a.headers[0]);
      }
    }
  }

  lemma {:induction false} ClearsHoldTheirReads(cap: nat, actions: seq<Action>, p: nat)
    requires 1 <= cap && p < |Run(cap, actions).peers|
    ensures HoldsItsRead(Run(cap, actions), p)
    decreases |actions|
  {
    if actions != [] {
      var before := actions[..|actions| - 1];
      if p < |Run(cap, before).peers| {
        ClearsHoldTheirReads(cap, before, p);
      }
      forall n: Uint64 ensures PendingWaits(Run(cap, before), n) {
        PendingIsWaiting(cap, before, n);
      }
      StepKeepsRead(Run(cap, before), cap, actions[|actions| - 1], p);
    }
  }

  // ----- What a removal answers -----

  /** The removal a peer is about to make: it answers exactly the challenges that waited when
      the peer read, in order. Of those that wait now it answers the one remembered at
      position i if and only if i comes before that read. */
  lemma RemovalAnswersIff(cap: nat, actions: seq<Action>, p: nat) returns (r: nat)
    requires 1 <= cap && p < |Run(cap, actions).peers| && Run(cap, actions).peers[p].Clearing?
    ensures var s, header := Run(cap, actions), Run(cap, actions).peers[p].header;
            var n := Low64(header.number);
            && ClearFrom(s.log, p, n, r) && s.log[r] == Received(p, header)
            && RemoveStep(s, p).log
               == s.log + ([Removed(n, p)] + Replies(AsChallenges(s.log[..r], WaitsAt(s.log[..r], n), n), header))
            && forall i :: i in WaitsAt(s.log, n) ==> (i in WaitsAt(s.log[..r], n) <==> i < r)
  {
    var s := Run(cap, actions);
    var n := Low64(s.peers[p].header.number);
    ClearsHoldTheirReads(cap, actions, p);
    r :| ClearFrom(s.log, p, n, r) && HasRead(s, p, n, r);
    forall i | i in WaitsAt(s.log, n) ensures i in WaitsAt(s.log[..r], n) <==> i < r {
      StillWaits(s.log, r, i, n);
    }
  }

  /** What waits now waited at any earlier time after it was remembered. */
  lemma StillWaits(log: seq<Event>, r: nat, i: nat, n: Uint64)
    requires r <= |log| && i in WaitsAt(log, n)
    ensures i in WaitsAt(log[..r], n) <==> i < r
  {
    WaitsMeaning(log, i, n);
    WaitsMeaning(log[..r], i, n);
  }

  /** A removal wipes out a waiting challenge without answering it if and only if one was
      remembered for the height after the removing peer read the list and waits until now. */
  lemma RemovalLosesIff(cap: nat, actions: seq<Action>, p: nat) returns (r: nat)
    requires 1 <= cap && p < |Run(cap, actions).peers| && Run(cap, actions).peers[p].Clearing?
    ensures var log := Run(cap, actions).log;
            var n := Low64(Run(cap, actions).peers[p].header.number);
            && ClearFrom(log, p, n, r)
            && ((exists i :: i in WaitsAt(log, n) && i !in WaitsAt(log[..r], n))
                <==> exists i ::
                       && r < i < |log| && RemembersFor(log[i], n)
                       && forall j :: i < j < |log| ==> !Loses(log[j], n))
  {
    var log := Run(cap, actions).log;
    var n := Low64(Run(cap, actions).peers[p].header.number);
    r := RemovalAnswersIff(cap, actions, p);
    if i :| i in WaitsAt(log, n) && i !in WaitsAt(log[..r], n) {
      WaitsMeaning(log, i, n);
      assert i > r;
    }
    if i :| r < i < |log| && RemembersFor(log[i], n) && forall j :: i < j < |log| ==> !Loses(log[j], n) {
      WaitsMeaning(log, i, n);
      assert i in WaitsAt(log, n) && i !in WaitsAt(log[..r], n);
    }
  }

  // ----- Every removal, and every reply, in the history -----

  /** The clear that read at r was completed by the removal at j. */
  ghost predicate Completes(log: seq<Event>, r: nat, j: nat) {
    j < |log| && log[j].Removed? && ClearFrom(log[..j], log[j].who, log[j].height, r)
  }

  /** The removal at j answers the challenge remembered at i. */
  predicate AnsweredBy(log: seq<Event>, j: nat, i: nat) {
    j < |log| && log[j].Removed? && i in ReadBy(log[..j], log[j].who)
  }

  /** The removal at j is followed by its replies, one for each position its peer had read:
      the very header received at r, sent to the peer remembered there. */
  ghost predicate RepliesFollow(log: seq<Event>, r: nat, j: nat)
    requires r < |log| && log[r].Received? && j < |log| && log[j].Removed?
  {
    var at := ReadBy(log[..j], log[j].who);
    && j + |at| < |log|
    && forall x :: 0 <= x < |at| ==> IsReplyTo(log, at[x], log[j + 1 + x], log[r].header)
  }

  /** The event sends that header to the peer remembered at i. */
  predicate IsReplyTo(log: seq<Event>, i: nat, e: Event, header: Header) {
    i < |log| && log[i].Remembered? && e == Replied(log[i].peer, header)
  }

  /** The reply at k is one of those that follow a removal. */
  ghost predicate ReplyOwned(log: seq<Event>, k: nat)
    requires k < |log|
  {
    exists j :: 0 <= j < k && log[j].Removed? && k - j <= |ReadBy(log[..j], log[j].who)|
  }

  /** The removal at j completes a clear and is followed by its replies. */
  ghost predicate RemovalExplained(log: seq<Event>, j: nat) {
    j < |log| && log[j].Removed? && exists r: nat :: Completes(log, r, j) && RepliesFollow(log, r, j)
  }

  ghost predicate RemovalsExplained(log: seq<Event>) {
    && (forall j :: 0 <= j < |log| && log[j].Removed? ==> RemovalExplained(log, j))
    && (forall k :: 0 <= k < |log| && log[k].Replied? ==> ReplyOwned(log, k))
  }

  lemma CompletesLonger(log: seq<Event>, more: seq<Event>, r: nat, j: nat)
    requires j < |log|
    ensures Completes(log + more, r, j) <==> Completes(log, r, j)
  {
    assert (log + more)[..j] == log[..j];
  }

  lemma RepliesFollowLonger(log: seq<Event>, more: seq<Event>, r: nat, j: nat)
    requires r < |log| && log[r].Received? && j < |log| && log[j].Removed? && RepliesFollow(log, r, j)
    ensures RepliesFollow(log + more, r, j)
  {
    var at, all := ReadBy(log[..j], log[j].who), log + more;
    assert all[..j] == log[..j];
    forall x | 0 <= x < |at| ensures IsReplyTo(all, at[x], all[j + 1 + x], all[r].header) {
      assert IsReplyTo(log, at[x], log[j + 1 + x], log[r].header);
    }
  }

  lemma ReplyOwnedLonger(log: seq<Event>, more: seq<Event>, k: nat)
    requires k < |log| && ReplyOwned(log, k)
    ensures ReplyOwned(log + more, k)
  {
    var j :| 0 <= j < k && log[j].Removed? && k - j <= |ReadBy(log[..j], log[j].who)|;
    assert (log + more)[..j] == log[..j];
  }

  lemma RemovalExplainedLonger(log: seq<Event>, more: seq<Event>, j: nat)
    requires RemovalExplained(log, j)
    ensures RemovalExplained(log + more, j)
  {
    var r: nat :| Completes(log, r, j) && RepliesFollow(log, r, j);
    CompletesLonger(log, more, r, j);
    RepliesFollowLonger(log, more, r, j);
  }

  lemma OldOnesExplained(log: seq<Event>, more: seq<Event>)
    requires RemovalsExplained(log)
    ensures var all := log + more;
            && (forall j :: 0 <= j < |log| && all[j].Removed? ==> RemovalExplained(all, j))
            && (forall k :: 0 <= k < |log| && all[k].Replied? ==> ReplyOwned(all, k))
  {
    var all := log + more;
    forall j | 0 <= j < |log| && all[j].Removed? ensures RemovalExplained(all, j) {
      RemovalExplainedLonger(log, more, j);
    }
    forall k | 0 <= k < |log| && all[k].Replied? ensures ReplyOwned(all, k) {
      ReplyOwnedLonger(log, more, k);
    }
  }

  lemma QuietExplained(log: seq<Event>, more: seq<Event>)
    requires RemovalsExplained(log) && forall e :: e in more ==> !e.Removed? && !e.Replied?
    ensures RemovalsExplained(log + more)
  {
    OldOnesExplained(log, more);
    assert forall k :: |log| <= k < |log + more| ==> (log + more)[k] in more;
  }

  lemma NewRemovalExplained(log: seq<Event>, p: nat, header: Header, found: seq<Challenge>, r: nat)
    requires RemovalsExplained(log) && ClearFrom(log, p, Low64(header.number), r) && log[r] == Received(p, header)
    requires found == AsChallenges(log[..r], WaitsAt(log[..r], Low64(header.number)), Low64(header.number))
    ensures RemovalsExplained(log + ([Removed(Low64(header.number), p)] + Replies(found, header)))
  {
    var more := [Removed(Low64(header.number), p)] + Replies(found, header);
    OldOnesExplained(log, more);
    LastRemovalExplained(log, p, header, found, r);
    NewRepliesOwned(log, p, header, found);
    AllExplained(log, log + more);
  }

  lemma LastRemovalExplained(log: seq<Event>, p: nat, header: Header, found: seq<Challenge>, r: nat)
    requires ClearFrom(log, p, Low64(header.number), r) && log[r] == Received(p, header)
    requires found == AsChallenges(log[..r], WaitsAt(log[..r], Low64(header.number)), Low64(header.number))
    ensures RemovalExplained(log + ([Removed(Low64(header.number), p)] + Replies(found, header)), |log|)
  {
    var n := Low64(header.number);
    var all := log + ([Removed(n, p)] + Replies(found, header));
    assert all[..|log|] == log && all[|log|] == Removed(n, p);
    assert Completes(all, r, |log|);
    NewRepliesFollow(log, p, header, found, r);
  }

  /** What was explained before, the next event, and only replies behind it. */
  lemma AllExplained(log: seq<Event>, all: seq<Event>)
    requires |log| < |all| && RemovalExplained(all, |log|)
    requires forall j :: 0 <= j < |log| && all[j].Removed? ==> RemovalExplained(all, j)
    requires forall k :: 0 <= k < |log| && all[k].Replied? ==> ReplyOwned(all, k)
    requires forall k :: |log| < k < |all| ==> all[k].Replied? && ReplyOwned(all, k)
    ensures RemovalsExplained(all)
  {
  }

  lemma NewRepliesOwned(log: seq<Event>, p: nat, header: Header, found: seq<Challenge>)
    requires |found| == |ReadBy(log, p)|
    ensures var all := log + ([Removed(Low64(header.number), p)] + Replies(found, header));
            forall k :: |log| < k < |all| ==> all[k].Replied? && ReplyOwned(all, k)
  {
    var all := log + ([Removed(Low64(header.number), p)] + Replies(found, header));
    assert all[..|log|] == log && all[|log|] == Removed(Low64(header.number), p);
    forall k | |log| < k < |all| ensures all[k].Replied? && ReplyOwned(all, k) {
      assert all[k] == Replies(found, header)[k - |log| - 1];
    }
  }

  lemma NewRepliesFollow(log: seq<Event>, p: nat, header: Header, found: seq<Challenge>, r: nat)
    requires ClearFrom(log, p, Low64(header.number), r) && log[r] == Received(p, header)
    requires found == AsChallenges(log[..r], WaitsAt(log[..r], Low64(header.number)), Low64(header.number))
    ensures RepliesFollow(log + ([Removed(Low64(header.number), p)] + Replies(found, header)), r, |log|)
  {
    var at := ReadBy(log, p);
    var all := log + ([Removed(Low64(header.number), p)] + Replies(found, header));
    assert all[..|log|] == log;
    forall x | 0 <= x < |at|
      ensures IsReplyTo(all, at[x], all[|log| + 1 + x], header)
    {
      assert all[|log| + 1 + x] == Replies(found, header)[x];
      assert log[..r][at[x]] == all[at[x]];
    }
  }

  lemma StepExplained(s: State, cap: nat, a: Action)
    requires RemovalsExplained(s.log) && forall p :: 0 <= p < |s.peers| ==> HoldsItsRead(s, p)
    ensures RemovalsExplained(Step(s, cap, a).log)
  {
    if !Enabled(s, a) {
      return;
    }
    NoteIsLogged(s, cap, a);
    if a.RemoveIt? {
      var c := s.peers[a.p];
      assert HoldsItsRead(s, a.p);
      var r: nat :| ClearFrom(s.log, a.p, Low64(c.header.number), r) && HasRead(s, a.p, Low64(c.header.number), r);
      NewRemovalExplained(s.log, a.p, c.header, c.found, r);
    } else {
      QuietExplained(s.log, Note(s, cap, a));
    }
  }

  /** In every run, each removal completes a clear and is followed by one reply, with the very
      header that clear began with, to each challenge it had read, in order; and there are no
      other replies. */
  lemma {:induction false} RunExplained(cap: nat, actions: seq<Action>)
    requires 1 <= cap
    ensures RemovalsExplained(Run(cap, actions).log)
    decreases |actions|
  {
    if actions != [] {
      var before := actions[..|actions| - 1];
      RunExplained(cap, before);
      forall p | 0 <= p < |Run(cap, before).peers| ensures HoldsItsRead(Run(cap, before), p) {
        ClearsHoldTheirReads(cap, before, p);
      }
      StepExplained(Run(cap, before), cap, actions[|actions| - 1]);
    }
  }

  // ----- A peer's own response finds its challenge -----

  /** p received a header for n after position i. */
  ghost predicate ReceivedAfter(log: seq<Event>, i: nat, p: nat, n: Uint64) {
    exists r :: i < r < |log| && Receives(log[r], p, n)
  }

  /** As long as a peer has not received a header for n after its remember, its challenge is
      pending if and only if it was not evicted, expired, or removed by another peer's clear
      since; its own clear cannot have removed it. */
  lemma OwnResponseFindsChallenge(cap: nat, actions: seq<Action>, i: nat)
    requires 1 <= cap && i < |Run(cap, actions).log| && Run(cap, actions).log[i].Remembered?
    requires var log := Run(cap, actions).log; !ReceivedAfter(log, i, log[i].peer, log[i].height)
    ensures var s := Run(cap, actions);
            var p, n := s.log[i].peer, s.log[i].height;
            && PendingAt(s.store, n) == AsChallenges(s.log, WaitsAt(s.log, n), n)
            && (i in WaitsAt(s.log, n) ==> Challenge(p, n) in PendingAt(s.store, n))
            && (i in WaitsAt(s.log, n) <==>
                  forall j :: i < j < |s.log| && Loses(s.log[j], n) ==> s.log[j].Removed? && s.log[j].who == p)
            && forall j :: i < j < |s.log| && s.log[j].Removed? && s.log[j].height == n ==> s.log[j].who != p
  {
    var s := Run(cap, actions);
    var p, n := s.log[i].peer, s.log[i].height;
    PendingIsWaiting(cap, actions, n);
    RunExplained(cap, actions);
    WaitsMeaning(s.log, i, n);
    forall j | i < j < |s.log| && s.log[j].Removed? && s.log[j].height == n ensures s.log[j].who != p {
      NotItsOwnRemoval(s.log, i, j);
    }
    if i in WaitsAt(s.log, n) {
      var at := WaitsAt(s.log, n);
      var x :| 0 <= x < |at| && at[x] == i;
      assert AsChallenges(s.log, at, n)[x] == Challenge(p, n);
    }
  }

  lemma NotItsOwnRemoval(log: seq<Event>, i: nat, j: nat)
    requires RemovalsExplained(log) && i < j < |log| && log[i].Remembered?
    requires log[j].Removed? && log[j].height == log[i].height && !ReceivedAfter(log, i, log[i].peer, log[i].height)
    ensures log[j].who != log[i].peer
  {
    var r: nat :| Completes(log, r, j);
    assert log[..j][r] == log[r] && log[..j][i] == log[i];
  }

  // ----- The race does happen -----

  lemma RunOne(cap: nat, actions: seq<Action>, a: Action) returns (next: seq<Action>, s: State)
    ensures next == actions + [a] && s == Run(cap, next) == Step(Run(cap, actions), cap, a)
  {
    next := actions + [a];
    assert next[..|actions|] == actions;
    s := Run(cap, next);
  }

  /** Two peers; the first one's challenge for height 7 is read but not yet removed. */
  lemma OneClearing(cap: nat) returns (a: seq<Action>, s: State)
    requires 1 <= cap
    ensures s == Run(cap, a) && s.peers == [Clearing(Header(7, []), [Challenge(0, 7)]), Idle]
    ensures s.store == [Entry(PendingKey(7), Pending([Challenge(0, 7)]))]
    ensures s.log == [Asked(0, 7), Remembered(0, 7), Received(0, Header(7, []))]
  {
    a, s := RunOne(cap, [], Join);
    a, s := RunOne(cap, a, Join);
    a, s := RunOne(cap, a, Ask(0, 7));
    assert s.store == [] && s.peers == [Reflected(7), Idle];
    assert Lookup(s.store, PendingKey(7)).None?;
    assert PendingAt(s.store, 7) + [Challenge(0, 7)] == [Challenge(0, 7)];
    a, s := RunOne(cap, a, RememberIt(0));
    assert s.store == [Entry(PendingKey(7), Pending([Challenge(0, 7)]))];
    a, s := RunOne(cap, a, Receive(0, [Header(7, [])]));
  }

  /** The second peer is remembered for the same height in between. */
  lemma LateComer(cap: nat) returns (a: seq<Action>, s: State)
    requires 1 <= cap
    ensures s == Run(cap, a) && s.peers == [Clearing(Header(7, []), [Challenge(0, 7)]), Idle]
    ensures s.log == [Asked(0, 7), Remembered(0, 7), Received(0, Header(7, [])), Asked(1, 7), Remembered(1, 7)]
  {
    a, s := OneClearing(cap);
    a, s := RunOne(cap, a, Ask(1, 7));
    assert s.peers[1] == Reflected(7) && Lookup(s.store, PendingKey(7)).Some?;
    a, s := RunOne(cap, a, RememberIt(1));
  }

  /** The race does happen: a challenge can be removed although nobody is ever answered
      for it and nothing was evicted or expired. */
  lemma RaceLosesChallenge(cap: nat)
    requires 1 <= cap
    ensures exists actions: seq<Action>, p: nat ::
              var s := Run(cap, actions);
              p < |s.peers| && Remembered(p, 7) in s.log && PendingAt(s.store, 7) == []
              && forall e :: e in s.log ==> !(e.Replied? && e.peer == p) && !e.Evicted? && !e.Expired?
  {
    var a, s := LateComer(cap);
    var late := s;
    a, s := RunOne(cap, a, RemoveIt(0));
    WithoutPending(late.store, PendingKey(7), 7);
    assert s.log == late.log + [Removed(7, 0), Replied(0, Header(7, []))];
    assert s.log[4] == Remembered(1, 7);
    assert 1 < |Run(cap, a).peers|;
  }
}
