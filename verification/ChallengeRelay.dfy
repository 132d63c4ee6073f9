/** The remember/clear protocol between peer goroutines. Clearing is two steps, RGet and
    Remove, so goroutines race on the same height; the cache may also evict or expire. */
module ChallengeRelay {
  import opened Types
  import opened Ring
  import opened Lru
  import opened ChallengePool

  /** Where a peer's message loop stands: between messages; query reflected but not yet
      remembered; or challenges read but not yet removed. */
  datatype Phase = Idle | Reflected(height: Uint64) | Clearing(header: Header, found: seq<Challenge>)

  datatype Event =
    | Asked(peer: nat, height: Uint64)
    | Remembered(peer: nat, height: Uint64)
    | Received(peer: nat, header: Header)
    | Removed(height: Uint64, who: nat)
    | Replied(peer: nat, header: Header)
    | Evicted(key: Key)
    | Expired(key: Key)

  datatype State = State(store: Store, peers: seq<Phase>, log: seq<Event>)

  datatype Action =
    | Join
    | Ask(p: nat, height: Uint64)
    | RememberIt(p: nat)
    | Receive(p: nat, headers: seq<Header>)
    | RemoveIt(p: nat)
    | UseHeader(height: Uint64)
    | CacheHeader(header: Header)
    | Expire(key: Key)

  function Init(): State {
    State([], [], [])
  }

  /** The key that falls out when k is inserted. */
  function Victim(s: Store, cap: nat, k: Key): Option<Key> {
    if Lookup(s, k).None? && |s| >= cap >= 1 then Some(s[cap - 1].key) else None
  }

  /** What an insertion adds to the log. */
  function Evictions(s: Store, cap: nat, k: Key): seq<Event> {
    match Victim(s, cap, k) case Some(x) => [Evicted(x)] case None => []
  }

  /** An insertion, with the eviction it causes on record. */
  function InsertLogged(s: State, cap: nat, k: Key, v: Value): State {
    s.(store := Insert(s.store, cap, k, v),
       log := s.log + Evictions(s.store, cap, k))
  }

  predicate Enabled(s: State, a: Action) {
    match a
    case Join => true
    case Ask(p, _) => p < |s.peers| && s.peers[p].Idle?
    case RememberIt(p) => p < |s.peers| && s.peers[p].Reflected?
    case Receive(p, hs) => p < |s.peers| && s.peers[p].Idle? && |hs| == 1
    case RemoveIt(p) => p < |s.peers| && s.peers[p].Clearing?
    case UseHeader(_) => true
    case CacheHeader(_) => true
    case Expire(k) => Lookup(s.store, k).Some?
  }

  /** RememberChallenge, one transaction on the cache. */
  function RememberStep(s: State, cap: nat, p: nat): State
    requires p < |s.peers| && s.peers[p].Reflected?
  {
    var n := s.peers[p].height;
    var s' := InsertLogged(s, cap, PendingKey(n), Pending(PendingAt(s.store, n) + [Challenge(p, n)]));
    s'.(peers := s.peers[p := Idle], log := s.log + (Evictions(s.store, cap, PendingKey(n)) + [Remembered(p, n)]))
  }

  /** The RGet half of ClearChallenge. */
  function ReadStep(s: State, p: nat, header: Header): State
    requires p < |s.peers|
  {
    var n := Low64(header.number);
    var s' := s.(log := s.log + [Received(p, header)]);
    if Lookup(s.store, PendingKey(n)).None? then s'
    else s'.(peers := s.peers[p := Clearing(header, PendingAt(s.store, n))])
  }

  function Replies(found: seq<Challenge>, header: Header): seq<Event> {
    seq(|found|, i requires 0 <= i < |found| => Replied(found[i].peer, header))
  }

  /** The Remove half, and the replies it releases. */
  function RemoveStep(s: State, p: nat): State
    requires p < |s.peers| && s.peers[p].Clearing?
  {
    var c := s.peers[p];
    var n := Low64(c.header.number);
    State(Without(s.store, PendingKey(n)), s.peers[p := Idle],
          s.log + ([Removed(n, p)] + Replies(c.found, c.header)))
  }

  function Step(s: State, cap: nat, a: Action): State {
    if !Enabled(s, a) then s else
    match a
    case Join => s.(peers := s.peers + [Idle])
    case Ask(p, n) => s.(peers := s.peers[p := Reflected(n)], log := s.log + [Asked(p, n)])
    case RememberIt(p) => RememberStep(s, cap, p)
    case Receive(p, hs) => ReadStep(s, p, hs[0])
    case RemoveIt(p) => RemoveStep(s, p)
    case UseHeader(n) => s.(store := Touch(s.store, Height(n)))
    case CacheHeader(h) => InsertLogged(s, cap, Height(Low64(h.number)), Known(h))
    case Expire(k) => s.(store := Without(s.store, k), log := s.log + [Expired(k)])
  }

  function Run(cap: nat, actions: seq<Action>): State {
    if actions == [] then Init()
    else Step(Run(cap, actions[..|actions| - 1]), cap, actions[|actions| - 1])
  }

  // ----- Every reply was asked for -----

  /** p asked for height n before position k. */
  ghost predicate AskedBefore(log: seq<Event>, k: nat, p: nat, n: Uint64)
    requires k <= |log|
  {
    Asked(p, n) in log[..k]
  }

  ghost predicate AllAsked(log: seq<Event>, cs: seq<Challenge>, n: Uint64) {
    forall i :: 0 <= i < |cs| ==> cs[i].asked == n && Asked(cs[i].peer, n) in log
  }

  ghost predicate PeerAsked(log: seq<Event>, p: nat, ph: Phase) {
    match ph
    case Idle => true
    case Reflected(n) => Asked(p, n) in log
    case Clearing(h, found) => AllAsked(log, found, Low64(h.number))
  }

  ghost predicate StoreAsked(log: seq<Event>, s: Store) {
    forall n: Uint64 :: AllAsked(log, PendingAt(s, n), n)
  }

  ghost predicate RepliesAsked(log: seq<Event>) {
    forall k :: 0 <= k < |log| && log[k].Replied? ==> AskedBefore(log, k, log[k].peer, Low64(log[k].header.number))
  }

  ghost predicate AskedInv(s: State, cap: nat) {
    && Good(s.store, cap) && StoreAsked(s.log, s.store)
    && (forall p :: 0 <= p < |s.peers| ==> PeerAsked(s.log, p, s.peers[p]))
    && RepliesAsked(s.log)
  }

  /** What a longer log without replies, or with justified ones, preserves. */
  lemma LongerLog(log: seq<Event>, more: seq<Event>)
    requires RepliesAsked(log)
    requires forall e :: e in more && e.Replied? ==> Asked(e.peer, Low64(e.header.number)) in log
    ensures RepliesAsked(log + more)
    ensures forall cs, n :: AllAsked(log, cs, n) ==> AllAsked(log + more, cs, n)
    ensures forall p, ph :: PeerAsked(log, p, ph) ==> PeerAsked(log + more, p, ph)
    ensures forall s :: StoreAsked(log, s) ==> StoreAsked(log + more, s)
  {
    var all := log + more;
    forall k | 0 <= k < |all| && all[k].Replied?
      ensures AskedBefore(all, k, all[k].peer, Low64(all[k].header.number))
    {
      if k < |log| {
        assert all[..k] == log[..k];
      } else {
        assert all[k] == more[k - |log|] && all[..k] == log + more[..k - |log|];
      }
    }
    assert forall e :: e in log ==> e in all;
  }

  /** Pending lists only shrink away, unless their own key is written. */
  lemma InsertPending(s: Store, cap: nat, k: Key, v: Value, n: Uint64)
    requires 1 <= cap && Bounded(s, cap)
    ensures var s' := Insert(s, cap, k, v);
            if k == PendingKey(n) then v.Pending? ==> PendingAt(s', n) == v.challenges
            else PendingAt(s', n) == PendingAt(s, n) || PendingAt(s', n) == []
    ensures k != PendingKey(n) && Victim(s, cap, k) != Some(PendingKey(n)) ==>
              PendingAt(Insert(s, cap, k, v), n) == PendingAt(s, n)
  {
    if k == PendingKey(n) {
      InsertStores(s, cap, k, v);
    } else {
      InsertKeepsOtherIff(s, cap, k, v, PendingKey(n));
      if Lookup(s, PendingKey(n)).Some? && Victim(s, cap, k) != Some(PendingKey(n)) {
        VictimOnly(s, cap, k, PendingKey(n));
      }
    }
  }

  /** A present key that is not the victim stays within the first cap positions. */
  lemma VictimOnly(s: Store, cap: nat, k: Key, x: Key)
    requires 1 <= cap && Bounded(s, cap) && x != k && Lookup(s, x).Some? && Victim(s, cap, k) != Some(x)
    ensures |Ahead(s, x) + {k}| < cap
  {
    AheadCountsPosition(s, x);
    PositionIsEntry(s, x);
    if Lookup(s, k).Some? {
      PositionIsEntry(s, k);
      AheadOrBehind(s, k, x);
      assert k in Ahead(s, x) ==> Ahead(s, x) + {k} == Ahead(s, x);
    }
  }

  lemma {:induction false} PositionIsEntry(s: Store, x: Key)
    requires Lookup(s, x).Some?
    ensures Position(s, x) < |s| && s[Position(s, x)].key == x
  {
    if s[0].key != x {
      PositionIsEntry(s[1..], x);
    }
  }

  lemma {:induction false} AheadOrBehind(s: Store, k: Key, x: Key)
    requires k != x && Lookup(s, k).Some? && Lookup(s, x).Some?
    ensures k in Ahead(s, x) || Position(s, x) + 1 < |s|
  {
    if s[0].key == x {
      PositionIsEntry(s[1..], k);
    } else if s[0].key != k {
      AheadOrBehind(s[1..], k, x);
    }
  }

  lemma WithoutPending(s: Store, k: Key, n: Uint64)
    ensures PendingAt(Without(s, k), n) == if k == PendingKey(n) then [] else PendingAt(s, n)
  {
    if k == PendingKey(n) {
      WithoutFacts(s, k);
      LookupIsHasKey(Without(s, k), k);
    } else {
      WithoutOther(s, k, PendingKey(n));
    }
  }

  lemma InsertAsked(s: State, cap: nat, k: Key, v: Value)
    requires 1 <= cap && AskedInv(s, cap) && RightKind(Entry(k, v))
    requires forall n: Uint64 :: k == PendingKey(n) && v.Pending? ==> AllAsked(s.log, v.challenges, n)
    ensures AskedInv(InsertLogged(s, cap, k, v), cap)
  {
    var s' := InsertLogged(s, cap, k, v);
    InsertKeepsKinds(s.store, cap, k, v);
    LongerLog(s.log, s'.log[|s.log|..]);
    assert s'.log == s.log + s'.log[|s.log|..];
    forall n: Uint64 ensures AllAsked(s'.log, PendingAt(s'.store, n), n) {
      InsertPending(s.store, cap, k, v, n);
      assert AllAsked(s.log, PendingAt(s.store, n), n);
    }
  }

  lemma RememberAsked(s: State, cap: nat, p: nat)
    requires 1 <= cap && AskedInv(s, cap) && p < |s.peers| && s.peers[p].Reflected?
    ensures AskedInv(RememberStep(s, cap, p), cap)
  {
    var n := s.peers[p].height;
    var k, v := PendingKey(n), Pending(PendingAt(s.store, n) + [Challenge(p, n)]);
    assert PeerAsked(s.log, p, s.peers[p]);
    assert AllAsked(s.log, PendingAt(s.store, n), n);
    assert RightKind(Entry(k, v));
    forall m: Uint64 | k == PendingKey(m) ensures AllAsked(s.log, v.challenges, m) {
      PendingTextInjective(m, n);
    }
    InsertAsked(s, cap, k, v);
    LongerLog(InsertLogged(s, cap, k, v).log, [Remembered(p, n)]);
    assert RememberStep(s, cap, p).log == InsertLogged(s, cap, k, v).log + [Remembered(p, n)];
  }

  lemma ReadAsked(s: State, cap: nat, p: nat, header: Header)
    requires AskedInv(s, cap) && p < |s.peers|
    ensures AskedInv(ReadStep(s, p, header), cap)
  {
    var n := Low64(header.number);
    LongerLog(s.log, [Received(p, header)]);
    assert AllAsked(s.log, PendingAt(s.store, n), n);
  }

  lemma RemoveAsked(s: State, cap: nat, p: nat)
    requires AskedInv(s, cap) && p < |s.peers| && s.peers[p].Clearing?
    ensures AskedInv(RemoveStep(s, p), cap)
  {
    var s', c := RemoveStep(s, p), s.peers[p];
    var n := Low64(c.header.number);
    assert PeerAsked(s.log, p, c);
    assert s'.log == s.log + s'.log[|s.log|..];
    LongerLog(s.log, s'.log[|s.log|..]);
    ApplyKeepsGood(s.store, cap, Clear(n));
    forall m: Uint64 ensures AllAsked(s'.log, PendingAt(s'.store, m), m) {
      WithoutPending(s.store, PendingKey(n), m);
      assert AllAsked(s.log, PendingAt(s.store, m), m);
    }
  }

  lemma ExpireAsked(s: State, cap: nat, k: Key)
    requires AskedInv(s, cap)
    ensures AskedInv(s.(store := Without(s.store, k), log := s.log + [Expired(k)]), cap)
  {
    var s' := s.(store := Without(s.store, k), log := s.log + [Expired(k)]);
    LongerLog(s.log, [Expired(k)]);
    WithoutFacts(s.store, k);
    WithoutKeepsDistinct(s.store, k);
    forall m: Uint64 ensures AllAsked(s'.log, PendingAt(s'.store, m), m) {
      WithoutPending(s.store, k, m);
      assert AllAsked(s.log, PendingAt(s.store, m), m);
    }
  }

  lemma TouchPending(s: Store, h: Uint64, n: Uint64)
    ensures PendingAt(Touch(s, Height(h)), n) == PendingAt(s, n)
  {
    TouchKeepsOther(s, Height(h), PendingKey(n));
  }

  lemma StepAsked(s: State, cap: nat, a: Action)
    requires 1 <= cap && AskedInv(s, cap)
    ensures AskedInv(Step(s, cap, a), cap)
  {
    if !Enabled(s, a) {
      return;
    }
    match a
    case Join =>
    case Ask(p, n) => LongerLog(s.log, [Asked(p, n)]);
    case RememberIt(p) => RememberAsked(s, cap, p);
    case Receive(p, hs) => ReadAsked(s, cap, p, hs[0]);
    case RemoveIt(p) => RemoveAsked(s, cap, p);
    case UseHeader(h) =>
      ApplyKeepsGood(s.store, cap, GetHeader(h));
      forall n: Uint64 ensures AllAsked(s.log, PendingAt(Touch(s.store, Height(h)), n), n) {
        TouchPending(s.store, h, n);
        assert AllAsked(s.log, PendingAt(s.store, n), n);
      }
    case CacheHeader(h) => InsertAsked(s, cap, Height(Low64(h.number)), Known(h));
    case Expire(k) => ExpireAsked(s, cap, k);
  }

  lemma {:induction false} RunAsked(cap: nat, actions: seq<Action>)
    requires 1 <= cap
    ensures AskedInv(Run(cap, actions), cap)
  {
    if actions != [] {
      RunAsked(cap, actions[..|actions| - 1]);
      StepAsked(Run(cap, actions[..|actions| - 1]), cap, actions[|actions| - 1]);
    }
  }

  /** Every header sent as a reply goes to a peer that earlier asked for exactly its height. */
  lemma RepliesWereAskedFor(cap: nat, actions: seq<Action>, k: nat)
    requires 1 <= cap && k < |Run(cap, actions).log| && Run(cap, actions).log[k].Replied?
    ensures var log := Run(cap, actions).log;
            exists i :: 0 <= i < k && log[i] == Asked(log[k].peer, Low64(log[k].header.number))
  {
    var log := Run(cap, actions).log;
    RunAsked(cap, actions);
    assert AskedBefore(log, k, log[k].peer, Low64(log[k].header.number));
    var i :| 0 <= i < |log[..k]| && log[..k][i] == Asked(log[k].peer, Low64(log[k].header.number));
  }

  // ----- The log -----

  /** What an enabled action adds to the log. */
  function Note(s: State, cap: nat, a: Action): seq<Event>
    requires Enabled(s, a)
  {
    match a
    case Join => []
    case Ask(p, n) => [Asked(p, n)]
    case RememberIt(p) => Evictions(s.store, cap, PendingKey(s.peers[p].height)) + [Remembered(p, s.peers[p].height)]
    case Receive(p, hs) => [Received(p, hs[0])]
    case RemoveIt(p) => [Removed(Low64(s.peers[p].header.number), p)] + Replies(s.peers[p].found, s.peers[p].header)
    case UseHeader(_) => []
    case CacheHeader(h) => Evictions(s.store, cap, Height(Low64(h.number)))
    case Expire(k) => [Expired(k)]
  }

  lemma NoteIsLogged(s: State, cap: nat, a: Action)
    requires Enabled(s, a)
    ensures Step(s, cap, a).log == s.log + Note(s, cap, a)
  {
  }

  lemma {:induction false} LogGrows(cap: nat, actions: seq<Action>, n: nat)
    requires n <= |actions|
    ensures Run(cap, actions[..n]).log <= Run(cap, actions).log
    decreases |actions|
  {
    if n < |actions| {
      var before := actions[..|actions| - 1];
      assert before[..n] == actions[..n];
      LogGrows(cap, before, n);
      if Enabled(Run(cap, before), actions[|actions| - 1]) {
        NoteIsLogged(Run(cap, before), cap, actions[|actions| - 1]);
      }
    } else {
      assert actions[..n] == actions;
    }
  }

  lemma EvictionNote(s: State, cap: nat, k: Key, v: Value) returns (more: seq<Event>)
    ensures InsertLogged(s, cap, k, v).log == s.log + more && forall e :: e in more ==> e.Evicted?
  {
    more := Evictions(s.store, cap, k);
  }

  // ----- A clear that nobody interrupts -----

  /** A clear with no step between its halves answers exactly the pending challenges, in order. */
  lemma UninterruptedClearAnswersAll(s: State, p: nat, header: Header)
    requires p < |s.peers| && s.peers[p].Idle? && PendingAt(s.store, Low64(header.number)) != []
    ensures var n, mid := Low64(header.number), ReadStep(s, p, header);
            var cs := PendingAt(s.store, n);
            && mid.peers[p].Clearing?
            && RemoveStep(mid, p).log == s.log + [Received(p, header), Removed(n, p)] + Replies(cs, header)
            && PendingAt(RemoveStep(mid, p).store, n) == []
  {
    WithoutPending(s.store, PendingKey(Low64(header.number)), Low64(header.number));
  }
}
