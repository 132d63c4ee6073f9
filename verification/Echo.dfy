/** What the pipeline announces to whom, counted exactly. For every connection and hash, the
    announcements of one relay are the lookups of that relay at which the connection was
    there and had neither shown the hash nor been told it. */
module Echo {
  import opened Types
  import opened Sequences
  import opened PoolModel
  import opened Batches
  import opened Relay

  // ----- What the log says about a connection -----

  predicate Connected(log: seq<Event>, p: nat) {
    Joined(p) in log && Left(p) !in log
  }

  /** p has shown h or was told it. */
  predicate Knows(log: seq<Event>, p: nat, h: Hash) {
    Marked(p, h) in log || Announced(p, h) in log
  }

  predicate Lacks(log: seq<Event>, p: nat, h: Hash) {
    Connected(log, p) && !Knows(log, p, h)
  }

  /** The connections are what the log says. */
  ghost predicate Follows(s: State) {
    && (forall p: nat :: p < |s.conns| <==> Joined(p) in s.log)
    && (forall p: nat :: p < |s.conns| ==> (s.conns[p].live <==> Left(p) !in s.log))
    && (forall p: nat :: Left(p) in s.log ==> p < |s.conns|)
    && (forall p: nat, h: Hash :: Knows(s.log, p, h) <==> p < |s.conns| && h in s.conns[p].known)
  }

  lemma UninformedLack(s: State, p: nat, h: Hash)
    requires Follows(s)
    ensures p in Uninformed(s.conns, h) <==> Lacks(s.log, p, h)
  {
    assert Knows(s.log, p, h) <==> p < |s.conns| && h in s.conns[p].known;
  }

  lemma InMarks(p: nat, hashes: seq<Hash>)
    ensures forall e :: e in Marks(p, hashes) <==> e.Marked? && e.conn == p && e.hash in hashes
  {
    forall h | h in hashes ensures Marked(p, h) in Marks(p, hashes) {
      var i :| 0 <= i < |hashes| && hashes[i] == h;
      assert Marks(p, hashes)[i] == Marked(p, h);
    }
  }

  lemma InOutcome(p: nat, list: seq<Hash>, delivered: bool)
    ensures forall e :: e in Outcome(p, list, delivered) ==>
              (if delivered then e.Announced? else e.Dropped?) && e.to == p && e.what in list
    ensures forall h :: h in list ==>
              (if delivered then Announced(p, h) else Dropped(p, h)) in Outcome(p, list, delivered)
  {
    var more := Outcome(p, list, delivered);
    forall h | h in list ensures (if delivered then Announced(p, h) else Dropped(p, h)) in more {
      var i :| 0 <= i < |list| && list[i] == h;
      assert more[i] == if delivered then Announced(p, h) else Dropped(p, h);
    }
  }

  /** Known-sets grow by exactly what the new events say; nobody joins or leaves. */
  lemma LearnKeepsFollows(s: State, s': State, more: seq<Event>, q: nat, learned: set<Hash>)
    requires Follows(s) && q < |s.conns| && s'.log == s.log + more
    requires s'.conns == s.conns[q := s.conns[q].(known := s.conns[q].known + learned)]
    requires forall e :: e in more ==> !e.Joined? && !e.Left?
    requires forall p: nat, h: Hash :: Marked(p, h) in more || Announced(p, h) in more <==> p == q && h in learned
    ensures Follows(s')
  {
    forall p: nat, h: Hash ensures Knows(s'.log, p, h) <==> p < |s'.conns| && h in s'.conns[p].known {
      assert Knows(s.log, p, h) <==> p < |s.conns| && h in s.conns[p].known;
    }
    forall p: nat ensures (Joined(p) in s'.log <==> Joined(p) in s.log) && (Left(p) in s'.log <==> Left(p) in s.log) {
      assert Joined(p) !in more && Left(p) !in more;
    }
  }

  /** Connections unchanged, and no event about them. */
  lemma QuietKeepsFollows(s: State, s': State, more: seq<Event>)
    requires Follows(s) && s'.conns == s.conns && s'.log == s.log + more
    requires forall e :: e in more ==> e.Taken? || e.LookedUp? || e.Dropped?
    ensures Follows(s')
  {
    forall p: nat, h: Hash ensures Knows(s'.log, p, h) <==> Knows(s.log, p, h) {
      assert Marked(p, h) !in more && Announced(p, h) !in more;
    }
    forall p: nat ensures (Joined(p) in s'.log <==> Joined(p) in s.log) && (Left(p) in s'.log <==> Left(p) in s.log) {
      assert Joined(p) !in more && Left(p) !in more;
    }
  }

  lemma ConnectKeepsFollows(s: State)
    requires Follows(s)
    ensures Follows(s.(conns := s.conns + [Conn({}, true)], log := s.log + [Joined(|s.conns|)]))
  {
    var n := |s.conns|;
    assert Left(n) !in s.log;
    assert forall h: Hash :: !Knows(s.log, n, h);
    assert forall p: nat, h: Hash :: Knows(s.log + [Joined(n)], p, h) <==> Knows(s.log, p, h);
  }

  lemma DisconnectKeepsFollows(s: State, q: nat)
    requires Follows(s) && q < |s.conns|
    ensures Follows(s.(conns := s.conns[q := s.conns[q].(live := false)], log := s.log + [Left(q)]))
  {
    assert forall p: nat, h: Hash :: Knows(s.log + [Left(q)], p, h) <==> Knows(s.log, p, h);
  }

  lemma SendKeepsFollows(s: State, p: nat, delivered: bool)
    requires Follows(s) && p in s.annos && p < |s.conns|
    ensures Follows(SendStep(s, p, delivered))
  {
    var s', list := SendStep(s, p, delivered), s.annos[p];
    InOutcome(p, list, delivered);
    if delivered {
      LearnKeepsFollows(s, s', Outcome(p, list, true), p, Elements(list));
    } else {
      QuietKeepsFollows(s, s', Outcome(p, list, false));
    }
  }

  lemma MarkKeepsFollows(s: State, p: nat, hashes: seq<Hash>)
    requires Follows(s) && p < |s.conns|
    ensures Follows(MarkAll(s, p, hashes))
  {
    InMarks(p, hashes);
    LearnKeepsFollows(s, MarkAll(s, p, hashes), Marks(p, hashes), p, Elements(hashes));
  }

  lemma StepKeepsFollows(s: State, cap: Capacity, a: Action)
    requires s.pool.caches.Shaped() && Follows(s)
    ensures Follows(Step(s, cap, a))
  {
    if !Enabled(s, a) {
      return;
    }
    match a
    case Connect => ConnectKeepsFollows(s);
    case Disconnect(p) => DisconnectKeepsFollows(s, p);
    case HashesArrive(p, hashes) => MarkKeepsFollows(s, p, hashes);
    case TxsArrive(p, txs) => MarkKeepsFollows(s, p, Hashes(BeforeNil(txs)));
    case Send(p, delivered) => SendKeepsFollows(s, p, delivered);
    case _ =>
      NoteIsLogged(s, cap, a);
      QuietKeepsFollows(s, Step(s, cap, a), Note(s, a));
  }

  lemma {:induction false} RunFollows(cap: Capacity, actions: seq<Action>)
    ensures Follows(Run(cap, actions))
    decreases |actions|
  {
    if actions != [] {
      RunFollows(cap, actions[..|actions| - 1]);
      StepKeepsFollows(Run(cap, actions[..|actions| - 1]), cap, actions[|actions| - 1]);
    }
  }

  // ----- Counting within the current relay -----

  /** How often e happened since a batch was last taken. */
  function Since(log: seq<Event>, e: Event): nat {
    if log == [] || log[|log| - 1].Taken? then 0
    else Since(log[..|log| - 1], e) + if log[|log| - 1] == e then 1 else 0
  }

  /** How many lookups of h since then found p connected and without h. */
  function Owed(log: seq<Event>, p: nat, h: Hash): nat {
    if log == [] || log[|log| - 1].Taken? then 0
    else
      var before := log[..|log| - 1];
      Owed(before, p, h) + if log[|log| - 1] == LookedUp(h) && Lacks(before, p, h) then 1 else 0
  }

  lemma {:induction false} SinceAppend(log: seq<Event>, more: seq<Event>, e: Event)
    requires forall x :: x in more ==> !x.Taken?
    ensures Since(log + more, e) == Since(log, e) + multiset(more)[e]
    decreases |more|
  {
    if more == [] {
      assert log + more == log;
    } else {
      var n := |more| - 1;
      SinceAppend(log, more[..n], e);
      assert (log + more)[..|log + more| - 1] == log + more[..n];
      assert more == more[..n] + [more[n]];
    }
  }

  lemma {:induction false} OwedAppend(log: seq<Event>, more: seq<Event>, p: nat, h: Hash)
    requires forall x :: x in more ==> !x.Taken? && !x.LookedUp?
    ensures Owed(log + more, p, h) == Owed(log, p, h)
    decreases |more|
  {
    if more == [] {
      assert log + more == log;
    } else {
      var n := |more| - 1;
      OwedAppend(log, more[..n], p, h);
      assert (log + more)[..|log + more| - 1] == log + more[..n];
    }
  }

  /** Somebody owed an announcement was looked up for it in this relay. */
  lemma {:induction false} OwedLookUp(log: seq<Event>, p: nat, h: Hash) returns (i: nat)
    requires Owed(log, p, h) > 0
    ensures i < |log| && log[i] == LookedUp(h) && Lacks(log[..i], p, h)
    ensures forall j :: i <= j < |log| ==> !log[j].Taken?
    ensures Owed(log[..i], p, h) + 1 == Owed(log, p, h)
    decreases |log|
  {
    var n := |log| - 1;
    if log[n] == LookedUp(h) && Lacks(log[..n], p, h) {
      i := n;
    } else {
      i := OwedLookUp(log[..n], p, h);
      assert log[..n][..i] == log[..i];
    }
  }

  /** And the other way round, for two lookups. */
  lemma {:induction false} LookUpOwed(log: seq<Event>, i: nat, p: nat, h: Hash)
    requires i < |log| && log[i] == LookedUp(h) && Lacks(log[..i], p, h)
    requires forall j :: i <= j < |log| ==> !log[j].Taken?
    ensures Owed(log, p, h) >= Owed(log[..i], p, h) + 1
    decreases |log|
  {
    var n := |log| - 1;
    if i < n {
      assert log[..n][..i] == log[..i];
      LookUpOwed(log[..n], i, p, h);
    }
  }

  function Announcements(log: seq<Event>, p: nat, h: Hash): nat {
    multiset(log)[Announced(p, h)]
  }

  /** Each announcement of h to p is one of as many as its own relay owed p. */
  ghost predicate CountsMatch(log: seq<Event>, p: nat, h: Hash) {
    forall k :: 0 <= k < |log| && log[k] == Announced(p, h) ==> Announcements(log, p, h) == Owed(log[..k], p, h)
  }

  /** Between two announcements of h to p lie only announcements to p: they were one packet. */
  ghost predicate OnePacket(log: seq<Event>, p: nat, h: Hash) {
    forall k, j, l :: 0 <= k <= j <= l < |log| && log[k] == Announced(p, h) && log[l] == Announced(p, h) ==>
      log[j].Announced? && log[j].to == p
  }

  /** What is owed has been announced, dropped, or is pending, and dropping needs a
      connection that is gone. */
  ghost predicate Balanced(s: State, p: nat, h: Hash) {
    var log, pending := s.log, multiset(ListOf(s.annos, p))[h];
    && Owed(log, p, h) == Since(log, Announced(p, h)) + Since(log, Dropped(p, h)) + pending
    && (s.next < |s.batch| || p in s.annos ==> Since(log, Announced(p, h)) == 0 && Since(log, Dropped(p, h)) == 0)
    && (pending > 0 ==> Announced(p, h) !in log)
    && (Dropped(p, h) in log ==> Left(p) in log)
  }

  ghost predicate ExactAt(s: State, p: nat, h: Hash) {
    Balanced(s, p, h) && CountsMatch(s.log, p, h) && OnePacket(s.log, p, h)
  }

  /** Steps whose events are not about announcing h to p. */
  lemma QuietKeepsCounts(log: seq<Event>, more: seq<Event>, p: nat, h: Hash)
    requires CountsMatch(log, p, h) && OnePacket(log, p, h) && Announced(p, h) !in more
    ensures CountsMatch(log + more, p, h) && OnePacket(log + more, p, h)
  {
    var all := log + more;
    assert forall i :: |log| <= i < |all| ==> all[i] in more;
    forall k | 0 <= k < |all| && all[k] == Announced(p, h)
      ensures k < |log| && Announcements(all, p, h) == Owed(all[..k], p, h)
    {
      assert all[..k] == log[..k];
    }
  }

  lemma QuietKeepsExact(s: State, s': State, more: seq<Event>, p: nat, h: Hash)
    requires ExactAt(s, p, h) && s'.log == s.log + more && s'.next == s.next && s'.batch == s.batch
    requires ListOf(s'.annos, p) == ListOf(s.annos, p) && (p in s'.annos ==> p in s.annos)
    requires forall e :: e in more ==> !e.Taken? && !e.LookedUp? && e != Announced(p, h) && e != Dropped(p, h)
    ensures ExactAt(s', p, h)
  {
    QuietKeepsCounts(s.log, more, p, h);
    SinceAppend(s.log, more, Announced(p, h));
    SinceAppend(s.log, more, Dropped(p, h));
    OwedAppend(s.log, more, p, h);
    assert Announced(p, h) !in more && Dropped(p, h) !in more;
  }

  lemma TakeKeepsExact(s: State, cap: Capacity, p: nat, h: Hash)
    requires s.pool.caches.Shaped() && ExactAt(s, p, h) && Enabled(s, Take)
    ensures ExactAt(Step(s, cap, Take), p, h)
  {
    QuietKeepsCounts(s.log, [Taken(s.queue[0])], p, h);
  }

  lemma LookUpKeepsExact(s: State, p: nat, h: Hash)
    requires Follows(s) && ExactAt(s, p, h) && s.next < |s.batch|
    ensures ExactAt(LookUpStep(s), p, h)
  {
    QuietKeepsCounts(s.log, [LookedUp(s.batch[s.next])], p, h);
    LookUpKeepsBalance(s, p, h);
  }

  lemma LookUpLists(s: State, p: nat, h: Hash)
    requires Follows(s) && s.next < |s.batch|
    ensures var x := s.batch[s.next];
            multiset(ListOf(LookUpStep(s).annos, p))[h]
            == multiset(ListOf(s.annos, p))[h] + if Lacks(s.log, p, x) && x == h then 1 else 0
  {
    var x := s.batch[s.next];
    UninformedLack(s, p, x);
    assert ListOf(LookUpStep(s).annos, p) == ListOf(s.annos, p) + if Lacks(s.log, p, x) then [x] else [];
  }

  lemma LookUpCounts(log: seq<Event>, x: Hash, p: nat, h: Hash)
    ensures Owed(log + [LookedUp(x)], p, h) == Owed(log, p, h) + if Lacks(log, p, h) && x == h then 1 else 0
    ensures Since(log + [LookedUp(x)], Announced(p, h)) == Since(log, Announced(p, h))
    ensures Since(log + [LookedUp(x)], Dropped(p, h)) == Since(log, Dropped(p, h))
  {
    assert (log + [LookedUp(x)])[..|log|] == log;
  }

  lemma LookUpKeepsBalance(s: State, p: nat, h: Hash)
    requires Follows(s) && Balanced(s, p, h) && s.next < |s.batch|
    ensures Balanced(LookUpStep(s), p, h)
  {
    LookUpLists(s, p, h);
    LookUpCounts(s.log, s.batch[s.next], p, h);
  }

  lemma {:induction false} OutcomeCounts(p: nat, list: seq<Hash>, delivered: bool, h: Hash)
    ensures multiset(Outcome(p, list, delivered))[Announced(p, h)] == if delivered then multiset(list)[h] else 0
    ensures multiset(Outcome(p, list, delivered))[Dropped(p, h)] == if delivered then 0 else multiset(list)[h]
    decreases |list|
  {
    var more := Outcome(p, list, delivered);
    if list != [] {
      var n := |list| - 1;
      OutcomeCounts(p, list[..n], delivered, h);
      assert more == Outcome(p, list[..n], delivered) + [more[n]];
      assert list == list[..n] + [list[n]];
    }
  }

  /** The list of p goes out, and it holds h. */
  lemma DeliveryKeepsCounts(log: seq<Event>, p: nat, list: seq<Hash>, h: Hash)
    requires Announced(p, h) !in log && Owed(log, p, h) == multiset(list)[h]
    ensures CountsMatch(log + Outcome(p, list, true), p, h) && OnePacket(log + Outcome(p, list, true), p, h)
  {
    var more := Outcome(p, list, true);
    var all := log + more;
    OutcomeCounts(p, list, true, h);
    InOutcome(p, list, true);
    assert forall i :: 0 <= i < |log| ==> all[i] in log;
    forall k | 0 <= k < |all| && all[k] == Announced(p, h)
      ensures k >= |log| && Announcements(all, p, h) == Owed(all[..k], p, h)
    {
      assert all[..k] == log + more[..k - |log|];
      OwedAppend(log, more[..k - |log|], p, h);
    }
    forall j | |log| <= j < |all| ensures all[j].Announced? && all[j].to == p {
      assert all[j] == more[j - |log|];
    }
  }

  lemma SendKeepsExact(s: State, p: nat, delivered: bool, h: Hash)
    requires Follows(s) && ExactAt(s, p, h) && p in s.annos && p < |s.conns| && s.next == |s.batch|
    requires delivered || !s.conns[p].live
    ensures ExactAt(SendStep(s, p, delivered), p, h)
  {
    var list := s.annos[p];
    var more := Outcome(p, list, delivered);
    InOutcome(p, list, delivered);
    OutcomeCounts(p, list, delivered, h);
    SinceAppend(s.log, more, Announced(p, h));
    SinceAppend(s.log, more, Dropped(p, h));
    OwedAppend(s.log, more, p, h);
    if delivered && h in list {
      DeliveryKeepsCounts(s.log, p, list, h);
    } else {
      QuietKeepsCounts(s.log, more, p, h);
    }
  }

  lemma StepKeepsExact(s: State, cap: Capacity, a: Action, p: nat, h: Hash)
    requires s.pool.caches.Shaped() && Follows(s) && ExactAt(s, p, h)
    ensures ExactAt(Step(s, cap, a), p, h)
  {
    if !Enabled(s, a) {
      return;
    }
    if a.Take? {
      TakeKeepsExact(s, cap, p, h);
    } else if a.LookUp? {
      LookUpKeepsExact(s, p, h);
    } else if a.Send? && a.conn == p {
      SendKeepsExact(s, p, a.delivered, h);
    } else {
      OthersKeepExact(s, cap, a, p, h);
    }
  }

  lemma OthersKeepExact(s: State, cap: Capacity, a: Action, p: nat, h: Hash)
    requires s.pool.caches.Shaped() && ExactAt(s, p, h) && Enabled(s, a)
    requires !a.Take? && !a.LookUp? && !(a.Send? && a.conn == p)
    ensures ExactAt(Step(s, cap, a), p, h)
  {
    NoteIsLogged(s, cap, a);
    OthersSayNothing(s, a, p, h);
    QuietKeepsExact(s, Step(s, cap, a), Note(s, a), p, h);
  }

  lemma OthersSayNothing(s: State, a: Action, p: nat, h: Hash)
    requires Enabled(s, a) && !a.Take? && !a.LookUp? && !(a.Send? && a.conn == p)
    ensures forall e :: e in Note(s, a) ==> !e.Taken? && !e.LookedUp? && e != Announced(p, h) && e != Dropped(p, h)
  {
    if a.Send? {
      InOutcome(a.conn, s.annos[a.conn], a.delivered);
    }
  }

  lemma {:induction false} RunIsExact(cap: Capacity, actions: seq<Action>, p: nat, h: Hash)
    ensures ExactAt(Run(cap, actions), p, h)
    decreases |actions|
  {
    if actions != [] {
      RunIsExact(cap, actions[..|actions| - 1], p, h);
      RunFollows(cap, actions[..|actions| - 1]);
      StepKeepsExact(Run(cap, actions[..|actions| - 1]), cap, actions[|actions| - 1], p, h);
    }
  }

  // ----- Main results, for every run -----

  /** h is announced to p, over the whole run, exactly as often as the relay of any one of
      these announcements looked h up while p was connected and without it. */
  lemma AnnouncedAsOftenAsOwed(cap: Capacity, actions: seq<Action>, k: nat, p: nat, h: Hash)
    requires k < |Run(cap, actions).log| && Run(cap, actions).log[k] == Announced(p, h)
    ensures var log := Run(cap, actions).log; Announcements(log, p, h) == Owed(log[..k], p, h)
  {
    RunIsExact(cap, actions, p, h);
  }

  /** Every announcement comes from a lookup of its own relay, before which the receiver
      was connected and had neither shown the hash nor been announced it. */
  lemma AnnouncedByOwnRelay(cap: Capacity, actions: seq<Action>, k: nat, p: nat, h: Hash) returns (i: nat)
    requires k < |Run(cap, actions).log| && Run(cap, actions).log[k] == Announced(p, h)
    ensures var log := Run(cap, actions).log;
            && i < k && log[i] == LookedUp(h) && Lacks(log[..i], p, h)
            && forall j :: i <= j <= k ==> !log[j].Taken?
  {
    RunIsExact(cap, actions, p, h);
    i := CauseOf(Run(cap, actions).log, k, p, h);
  }

  lemma CauseOf(log: seq<Event>, k: nat, p: nat, h: Hash) returns (i: nat)
    requires k < |log| && log[k] == Announced(p, h) && CountsMatch(log, p, h)
    ensures i < k && log[i] == LookedUp(h) && Lacks(log[..i], p, h)
    ensures forall j :: i <= j <= k ==> !log[j].Taken?
  {
    assert log[k] in multiset(log);
    i := OwedLookUp(log[..k], p, h);
    assert log[..k][..i] == log[..i];
    assert forall j :: i <= j < k ==> log[..k][j] == log[j];
  }

  lemma ShownLater(log: seq<Event>, i: nat, m: nat, p: nat, h: Hash)
    requires i <= |log| && m < |log| && Lacks(log[..i], p, h) && log[m] == Marked(p, h)
    ensures i <= m
  {
    assert forall x :: 0 <= x < i ==> log[x] in log[..i];
  }

  /** No echo in any relay of h, the first or a later one: an announcement to a peer that
      showed h before can only come from a relay that had looked h up before that. */
  lemma NoEcho(cap: Capacity, actions: seq<Action>, m: nat, k: nat, p: nat, h: Hash) returns (i: nat)
    requires m < k < |Run(cap, actions).log|
    requires Run(cap, actions).log[m] == Marked(p, h) && Run(cap, actions).log[k] == Announced(p, h)
    ensures var log := Run(cap, actions).log;
            i < m && log[i] == LookedUp(h) && forall j :: i <= j <= k ==> !log[j].Taken?
  {
    i := AnnouncedByOwnRelay(cap, actions, k, p, h);
    var log := Run(cap, actions).log;
    ShownLater(log, i, m, p, h);
  }

  /** Whenever the loop is back at its select, the relay it finished gave every connection
      what it owed: once for each lookup that found it connected and without the hash, and
      nobody anything else. Only a connection that is gone can have had its list dropped. */
  lemma LookUpsAreHonoured(cap: Capacity, actions: seq<Action>, p: nat, h: Hash)
    requires Idle(Run(cap, actions))
    ensures var log := Run(cap, actions).log;
            && Since(log, Announced(p, h)) + Since(log, Dropped(p, h)) == Owed(log, p, h)
            && (Left(p) !in log ==> Since(log, Announced(p, h)) == Owed(log, p, h))
  {
    RunIsExact(cap, actions, p, h);
    if Since(Run(cap, actions).log, Dropped(p, h)) > 0 {
      SinceHappened(Run(cap, actions).log, Dropped(p, h));
    }
  }

  lemma {:induction false} SinceHappened(log: seq<Event>, e: Event)
    requires Since(log, e) > 0
    ensures e in log
    decreases |log|
  {
    if log[|log| - 1] != e {
      SinceHappened(log[..|log| - 1], e);
    }
  }

  // ----- At most once -----

  /** Two lookups of h in the relay that position k is in found p connected and without it. */
  ghost predicate LookedUpTwice(log: seq<Event>, k: nat, p: nat, h: Hash)
    requires k <= |log|
  {
    exists i, j ::
      && 0 <= i < j < k && log[i] == LookedUp(h) && log[j] == LookedUp(h)
      && Lacks(log[..i], p, h) && Lacks(log[..j], p, h) && forall x :: i <= x < k ==> !log[x].Taken?
  }

  lemma OwedTwice(log: seq<Event>, k: nat, p: nat, h: Hash)
    requires k <= |log|
    ensures Owed(log[..k], p, h) >= 2 <==> LookedUpTwice(log, k, p, h)
  {
    if Owed(log[..k], p, h) >= 2 {
      OwedTwiceLookUps(log, k, p, h);
    }
    if LookedUpTwice(log, k, p, h) {
      LookUpsOweTwice(log, k, p, h);
    }
  }

  lemma OwedTwiceLookUps(log: seq<Event>, k: nat, p: nat, h: Hash)
    requires k <= |log| && Owed(log[..k], p, h) >= 2
    ensures LookedUpTwice(log, k, p, h)
  {
    var j := OwedLookUp(log[..k], p, h);
    assert log[..k][..j] == log[..j];
    var i := OwedLookUp(log[..j], p, h);
    assert log[..j][..i] == log[..i];
    forall x | i <= x < k ensures !log[x].Taken? {
      if x < j {
        assert log[..j][x] == log[x];
      } else {
        assert log[..k][x] == log[x];
      }
    }
  }

  lemma LookUpsOweTwice(log: seq<Event>, k: nat, p: nat, h: Hash)
    requires k <= |log| && LookedUpTwice(log, k, p, h)
    ensures Owed(log[..k], p, h) >= 2
  {
    var i, j :| 0 <= i < j < k && log[i] == LookedUp(h) && log[j] == LookedUp(h)
      && Lacks(log[..i], p, h) && Lacks(log[..j], p, h) && forall x :: i <= x < k ==> !log[x].Taken?;
    assert log[..j][..i] == log[..i] && log[..k][..j] == log[..j];
    LookUpOwed(log[..j], i, p, h);
    LookUpOwed(log[..k], j, p, h);
  }

  lemma CountedTwice<T>(s: seq<T>, k: nat)
    requires k < |s|
    ensures multiset(s)[s[k]] >= 2 <==> exists l :: 0 <= l < |s| && l != k && s[l] == s[k]
  {
    assert s == s[..k] + [s[k]] + s[k + 1..];
    if l :| 0 <= l < |s| && l != k && s[l] == s[k] {
      assert if l < k then s[..k][l] == s[k] else s[k + 1..][l - k - 1] == s[k];
    }
    if multiset(s)[s[k]] >= 2 {
      assert s[k] in s[..k] || s[k] in s[k + 1..];
      if s[k] in s[..k] {
        var l :| 0 <= l < k && s[..k][l] == s[k];
        assert s[l] == s[k];
      } else {
        var l :| 0 <= l < |s[k + 1..]| && s[k + 1..][l] == s[k];
        assert s[k + 1 + l] == s[k];
      }
    }
  }

  /** An announcement is repeated, anywhere in the run, if and only if two lookups of its own
      relay found the peer connected and without the hash. */
  lemma AnnouncedTwiceIff(cap: Capacity, actions: seq<Action>, k: nat, p: nat, h: Hash)
    requires k < |Run(cap, actions).log| && Run(cap, actions).log[k] == Announced(p, h)
    ensures var log := Run(cap, actions).log;
            (exists l :: 0 <= l < |log| && l != k && log[l] == Announced(p, h)) <==> LookedUpTwice(log, k, p, h)
  {
    var log := Run(cap, actions).log;
    AnnouncedAsOftenAsOwed(cap, actions, k, p, h);
    OwedTwice(log, k, p, h);
    CountedTwice(log, k);
  }

  /** Repeated announcements are always one packet: never two relays, never two packets. */
  lemma RepeatsAreOnePacket(cap: Capacity, actions: seq<Action>, k: nat, l: nat)
    requires k < l < |Run(cap, actions).log|
    requires Run(cap, actions).log[k].Announced? && Run(cap, actions).log[k] == Run(cap, actions).log[l]
    ensures var log := Run(cap, actions).log;
            forall j :: k <= j <= l ==> log[j].Announced? && log[j].to == log[k].to
  {
    RunIsExact(cap, actions, Run(cap, actions).log[k].to, Run(cap, actions).log[k].what);
  }
}
