/** What goes into the challenge relay: its steps on the cache are those of the pool, and its
    history records just the messages that arrived and what peers did about them. */
module RelayInputs {
  import opened Types
  import opened Ring
  import opened Lru
  import opened ChallengePool
  import opened ChallengeRelay
  import opened Waiting

  // ----- The cache is the pool's -----

  /** What an enabled step does to the pool. The read half of a clear does nothing to it. */
  function OpsOfStep(s: State, a: Action): seq<Op>
    requires Enabled(s, a)
  {
    match a
    case RememberIt(p) => [Remember(p, s.peers[p].height)]
    case RemoveIt(p) => [Clear(Low64(s.peers[p].header.number))]
    case UseHeader(n) => [GetHeader(n)]
    case CacheHeader(h) => [AddHeader(h)]
    case _ => []
  }

  function OpsOf(cap: nat, actions: seq<Action>): seq<Op> {
    if actions == [] then []
    else
      var before, a := actions[..|actions| - 1], actions[|actions| - 1];
      OpsOf(cap, before) + if Enabled(Run(cap, before), a) then OpsOfStep(Run(cap, before), a) else []
  }

  lemma StepApplies(s: State, cap: nat, a: Action)
    requires Enabled(s, a) && !a.Expire?
    ensures |OpsOfStep(s, a)| <= 1
    ensures Step(s, cap, a).store == if OpsOfStep(s, a) == [] then s.store else Apply(s.store, cap, OpsOfStep(s, a)[0])
  {
    match a
    case RememberIt(p) => assert Step(s, cap, a) == RememberStep(s, cap, p);
    case RemoveIt(p) => assert Step(s, cap, a) == RemoveStep(s, p);
    case _ =>
  }

  lemma StepIsOps(s: State, cap: nat, a: Action, ops: seq<Op>)
    requires s.store == RunOps(cap, ops) && Enabled(s, a) && !a.Expire?
    ensures Step(s, cap, a).store == RunOps(cap, ops + OpsOfStep(s, a))
  {
    StepApplies(s, cap, a);
    RunOneMore(cap, ops, OpsOfStep(s, a));
  }

  lemma RunOneMore(cap: nat, ops: seq<Op>, more: seq<Op>)
    requires |more| <= 1
    ensures RunOps(cap, ops + more) == if more == [] then RunOps(cap, ops) else Apply(RunOps(cap, ops), cap, more[0])
  {
    if more == [] {
      assert ops + more == ops;
    } else {
      assert (ops + more)[..|ops|] == ops;
    }
  }

  /** In every run in which nothing expires, however peers interleave, the cache is that of
      the pool after the remembers, removals and header operations in the order they happened:
      so what is evicted is what the pool evicts. */
  lemma {:induction false} StoreIsPool(cap: nat, actions: seq<Action>)
    requires forall a :: a in actions ==> !a.Expire?
    ensures Run(cap, actions).store == RunOps(cap, OpsOf(cap, actions))
    decreases |actions|
  {
    if actions != [] {
      var before, a := actions[..|actions| - 1], actions[|actions| - 1];
      StoreIsPool(cap, before);
      if Enabled(Run(cap, before), a) {
        StepIsOps(Run(cap, before), cap, a, OpsOf(cap, before));
      } else {
        assert OpsOf(cap, before) + [] == OpsOf(cap, before);
      }
    }
  }

  // ----- The messages -----

  /** What one step adds to the history. */
  function Added(s: State, cap: nat, a: Action): seq<Event> {
    if Enabled(s, a) then Note(s, cap, a) else []
  }

  /** A peer between messages asks or answers, and only packets of one header are looked at. */
  lemma MessagesAreLogged(s: State, cap: nat, a: Action, p: nat, n: Uint64, header: Header)
    ensures Step(s, cap, a).log == s.log + Added(s, cap, a)
    ensures var listens := p < |s.peers| && s.peers[p].Idle?;
            && (Asked(p, n) in Added(s, cap, a) <==> listens && a == Ask(p, n))
            && (Received(p, header) in Added(s, cap, a) <==> listens && a == Receive(p, [header]))
  {
    if Enabled(s, a) {
      NoteIsLogged(s, cap, a);
    }
  }

  // ----- A clear starts only when something waits -----

  ghost predicate NoEmptyLists(s: Store) {
    forall e :: e in s && e.value.Pending? ==> e.value.challenges != []
  }

  lemma {:induction false} WithoutIsPart(s: Store, k: Key)
    ensures forall e :: e in Without(s, k) ==> e in s
  {
    if s != [] {
      WithoutIsPart(s[1..], k);
    }
  }

  lemma InsertKeepsLists(s: Store, cap: nat, k: Key, v: Value)
    requires NoEmptyLists(s) && (v.Pending? ==> v.challenges != [])
    ensures NoEmptyLists(Insert(s, cap, k, v))
  {
    WithoutIsPart(s, k);
    var all := [Entry(k, v)] + Without(s, k);
    assert forall e :: e in Insert(s, cap, k, v) ==> e in all;
  }

  lemma TouchKeepsLists(s: Store, k: Key)
    requires NoEmptyLists(s)
    ensures NoEmptyLists(Touch(s, k))
  {
    WithoutIsPart(s, k);
    LookupIsHasKey(s, k);
  }

  lemma StepKeepsLists(s: State, cap: nat, a: Action)
    requires NoEmptyLists(s.store)
    ensures NoEmptyLists(Step(s, cap, a).store)
  {
    if Enabled(s, a) {
      match a
      case RememberIt(p) =>
        var n := s.peers[p].height;
        InsertKeepsLists(s.store, cap, PendingKey(n), Pending(PendingAt(s.store, n) + [Challenge(p, n)]));
      case CacheHeader(h) => InsertKeepsLists(s.store, cap, Height(Low64(h.number)), Known(h));
      case UseHeader(n) => TouchKeepsLists(s.store, Height(n));
      case RemoveIt(p) => WithoutIsPart(s.store, PendingKey(Low64(s.peers[p].header.number)));
      case Expire(k) => WithoutIsPart(s.store, k);
      case _ =>
    }
  }

  lemma {:induction false} RunKeepsLists(cap: nat, actions: seq<Action>)
    ensures NoEmptyLists(Run(cap, actions).store)
    decreases |actions|
  {
    if actions != [] {
      RunKeepsLists(cap, actions[..|actions| - 1]);
      StepKeepsLists(Run(cap, actions[..|actions| - 1]), cap, actions[|actions| - 1]);
    }
  }

  lemma FoundMeansWaiting(s: State, cap: nat, n: Uint64)
    requires Good(s.store, cap) && NoEmptyLists(s.store)
    ensures Lookup(s.store, PendingKey(n)).Some? <==> PendingAt(s.store, n) != []
  {
    PendingKind(s.store, n);
    LookupIsHasKey(s.store, PendingKey(n));
  }

  /** In every run, a header starts a clear if and only if a challenge waits for its height when
      it arrives; otherwise nothing will be removed for it. */
  lemma ClearStartsIff(cap: nat, actions: seq<Action>, p: nat, header: Header)
    requires 1 <= cap && p < |Run(cap, actions).peers| && Run(cap, actions).peers[p].Idle?
    ensures var s := Run(cap, actions);
            var s' := Step(s, cap, Receive(p, [header]));
            && (s'.peers[p].Clearing? <==> WaitsAt(s.log, Low64(header.number)) != [])
            && (WaitsAt(s.log, Low64(header.number)) == [] ==> s'.peers == s.peers)
  {
    var s, n := Run(cap, actions), Low64(header.number);
    RunAsked(cap, actions);
    RunKeepsLists(cap, actions);
    PendingIsWaiting(cap, actions, n);
    FoundMeansWaiting(s, cap, n);
    assert Step(s, cap, Receive(p, [header])) == ReadStep(s, p, header);
  }

  // ----- Whoever is remembered asked just before -----

  /** p asked for n at position j and has done nothing since. */
  ghost predicate AskedAt(log: seq<Event>, p: nat, n: Uint64, j: nat) {
    j < |log| && log[j] == Asked(p, n) && forall k :: j < k < |log| ==> !ByPeer(log[k], p)
  }

  ghost predicate HasAsked(log: seq<Event>, p: nat, ph: Phase) {
    ph.Reflected? ==> exists j: nat :: AskedAt(log, p, ph.height, j)
  }

  /** The peer remembered at k asked for that height before, and did nothing in between. */
  ghost predicate RememberExplained(log: seq<Event>, k: nat) {
    k < |log| && log[k].Remembered? && exists j: nat :: AskedAt(log[..k], log[k].peer, log[k].height, j)
  }

  ghost predicate RemembersExplained(log: seq<Event>) {
    forall k :: 0 <= k < |log| && log[k].Remembered? ==> RememberExplained(log, k)
  }

  lemma StillAsked(log: seq<Event>, more: seq<Event>, p: nat, ph: Phase)
    requires HasAsked(log, p, ph) && forall e :: e in more ==> !ByPeer(e, p)
    ensures HasAsked(log + more, p, ph)
  {
    if ph.Reflected? {
      var j: nat :| AskedAt(log, p, ph.height, j);
      assert forall k :: |log| <= k < |log + more| ==> (log + more)[k] in more;
      assert AskedAt(log + more, p, ph.height, j);
    }
  }

  lemma StepHasAsked(s: State, cap: nat, a: Action, p: nat)
    requires Enabled(s, a) && p < |Step(s, cap, a).peers| && (p < |s.peers| ==> HasAsked(s.log, p, s.peers[p]))
    ensures HasAsked(Step(s, cap, a).log, p, Step(s, cap, a).peers[p])
  {
    NoteIsLogged(s, cap, a);
    if p < |s.peers| && !Acts(a, p) {
      OthersAreQuiet(s, cap, a, p);
      StillAsked(s.log, Note(s, cap, a), p, s.peers[p]);
      assert Step(s, cap, a).peers[p] == s.peers[p];
    } else if a.Ask? {
      assert AskedAt(Step(s, cap, a).log, p, a.height, |s.log|);
    }
  }

  lemma OlderExplained(log: seq<Event>, more: seq<Event>)
    requires RemembersExplained(log)
    ensures forall k :: 0 <= k < |log| && log[k].Remembered? ==> RememberExplained(log + more, k)
  {
    forall k | 0 <= k < |log| && log[k].Remembered? ensures RememberExplained(log + more, k) {
      assert (log + more)[..k] == log[..k] && RememberExplained(log, k);
    }
  }

  lemma QuietRemembers(log: seq<Event>, more: seq<Event>)
    requires RemembersExplained(log) && forall e :: e in more ==> !e.Remembered?
    ensures RemembersExplained(log + more)
  {
    OlderExplained(log, more);
    assert forall k :: |log| <= k < |log + more| ==> (log + more)[k] in more;
  }

  lemma OneMoreRemember(log: seq<Event>, p: nat, n: Uint64)
    requires RemembersExplained(log) && HasAsked(log, p, Reflected(n))
    ensures RemembersExplained(log + [Remembered(p, n)])
  {
    OlderExplained(log, [Remembered(p, n)]);
    assert (log + [Remembered(p, n)])[..|log|] == log;
    assert RememberExplained(log + [Remembered(p, n)], |log|);
  }

  lemma StepRemembers(s: State, cap: nat, a: Action)
    requires Enabled(s, a) && RemembersExplained(s.log)
    requires forall p :: 0 <= p < |s.peers| ==> HasAsked(s.log, p, s.peers[p])
    ensures RemembersExplained(Step(s, cap, a).log)
  {
    NoteIsLogged(s, cap, a);
    if a.RememberIt? {
      var n := s.peers[a.p].height;
      var note := Evictions(s.store, cap, PendingKey(n));
      QuietRemembers(s.log, note);
      StillAsked(s.log, note, a.p, Reflected(n));
      OneMoreRemember(s.log + note, a.p, n);
      assert s.log + Note(s, cap, a) == s.log + note + [Remembered(a.p, n)];
    } else {
      QuietRemembers(s.log, Note(s, cap, a));
    }
  }

  ghost predicate AllHaveAsked(s: State) {
    forall p :: 0 <= p < |s.peers| ==> HasAsked(s.log, p, s.peers[p])
  }

  lemma StepExplains(s: State, cap: nat, a: Action)
    requires RemembersExplained(s.log) && AllHaveAsked(s)
    ensures RemembersExplained(Step(s, cap, a).log) && AllHaveAsked(Step(s, cap, a))
  {
    if Enabled(s, a) {
      StepRemembers(s, cap, a);
      forall p | 0 <= p < |Step(s, cap, a).peers| ensures HasAsked(Step(s, cap, a).log, p, Step(s, cap, a).peers[p]) {
        StepHasAsked(s, cap, a, p);
      }
    }
  }

  /** In every run, whoever is remembered for a height asked for it, with nothing of its own in
      between. */
  lemma {:induction false} RememberedAsAsked(cap: nat, actions: seq<Action>)
    ensures RemembersExplained(Run(cap, actions).log) && AllHaveAsked(Run(cap, actions))
    decreases |actions|
  {
    if actions != [] {
      RememberedAsAsked(cap, actions[..|actions| - 1]);
      StepExplains(Run(cap, actions[..|actions| - 1]), cap, actions[|actions| - 1]);
    }
  }
}
