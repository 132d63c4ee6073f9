/** Who can still be sent a hash after having shown it, and who delivered it first. */
module Origins {
  import opened Types
  import opened PoolModel
  import opened Batches
  import opened Relay
  import Admission
  import Echo

  // ----- After a peer has shown a hash -----

  /** p knows h and no list waiting for p holds h. */
  ghost predicate Barred(s: State, p: nat, h: Hash) {
    p < |s.conns| && h in s.conns[p].known && h !in ListOf(s.annos, p)
  }

  lemma StepKeepsBarred(s: State, cap: Capacity, a: Action, p: nat, h: Hash)
    requires s.pool.caches.Shaped() && Barred(s, p, h)
    ensures Barred(Step(s, cap, a), p, h)
    ensures Enabled(s, a) ==> Announced(p, h) !in Note(s, a)
  {
    if Enabled(s, a) && a.Send? {
      Echo.InOutcome(a.conn, s.annos[a.conn], a.delivered);
    }
  }

  lemma {:induction false} BarredForGood(cap: Capacity, actions: seq<Action>, n: nat, p: nat, h: Hash)
    requires n <= |actions| && Barred(Run(cap, actions[..n]), p, h)
    ensures Barred(Run(cap, actions), p, h)
    ensures |Run(cap, actions[..n]).log| <= |Run(cap, actions).log|
    ensures Announced(p, h) !in Run(cap, actions).log[|Run(cap, actions[..n]).log|..]
    decreases |actions|
  {
    if n == |actions| {
      assert actions[..n] == actions;
    } else {
      var before := actions[..|actions| - 1];
      assert before[..n] == actions[..n];
      BarredForGood(cap, before, n, p, h);
      LaterStep(Run(cap, actions[..n]).log, Run(cap, before), cap, actions[|actions| - 1], p, h);
    }
  }

  lemma LaterStep(start: seq<Event>, s: State, cap: Capacity, a: Action, p: nat, h: Hash)
    requires s.pool.caches.Shaped() && Barred(s, p, h)
    requires |start| <= |s.log| && Announced(p, h) !in s.log[|start|..]
    ensures Barred(Step(s, cap, a), p, h) && |start| <= |Step(s, cap, a).log|
    ensures Announced(p, h) !in Step(s, cap, a).log[|start|..]
  {
    StepKeepsBarred(s, cap, a, p, h);
    if Enabled(s, a) {
      NoteIsLogged(s, cap, a);
      assert (s.log + Note(s, a))[|start|..] == s.log[|start|..] + Note(s, a);
    }
  }

  // ----- A pending hash can still be sent -----

  ghost predicate Shape(s: State) {
    s.next <= |s.batch| && forall p :: p in s.annos ==> p < |s.conns|
  }

  lemma {:induction false} RunHasShape(cap: Capacity, actions: seq<Action>)
    ensures Shape(Run(cap, actions))
    decreases |actions|
  {
    if actions != [] {
      RunHasShape(cap, actions[..|actions| - 1]);
      StepKeepsShape(Run(cap, actions[..|actions| - 1]), cap, actions[|actions| - 1]);
    }
  }

  lemma StepKeepsShape(s: State, cap: Capacity, a: Action)
    requires s.pool.caches.Shaped() && Shape(s)
    ensures Shape(Step(s, cap, a))
  {
  }

  /** The loop finishes its lookups; h stays on p's list. */
  lemma {:induction false} LookUpsFinish(cap: Capacity, actions: seq<Action>, p: nat, h: Hash)
    returns (longer: seq<Action>)
    requires h in ListOf(Run(cap, actions).annos, p)
    ensures actions <= longer && Run(cap, longer).next == |Run(cap, longer).batch|
    ensures h in ListOf(Run(cap, longer).annos, p)
    decreases |Run(cap, actions).batch| - Run(cap, actions).next
  {
    var s := Run(cap, actions);
    RunHasShape(cap, actions);
    longer := actions;
    if s.next < |s.batch| {
      longer := actions + [LookUp];
      assert longer[..|actions|] == actions;
      assert Run(cap, longer) == LookUpStep(s);
      longer := LookUpsFinish(cap, longer, p, h);
    }
  }

  lemma PendingCanBeSent(cap: Capacity, actions: seq<Action>, p: nat, h: Hash) returns (longer: seq<Action>)
    requires h in ListOf(Run(cap, actions).annos, p)
    ensures actions <= longer && |Run(cap, actions).log| <= |Run(cap, longer).log|
    ensures Announced(p, h) in Run(cap, longer).log[|Run(cap, actions).log|..]
  {
    var ready := LookUpsFinish(cap, actions, p, h);
    longer := ready + [Send(p, true)];
    assert longer[..|ready|] == ready && ready[..|actions|] == actions;
    RunHasShape(cap, ready);
    LogGrows(cap, ready, |actions|);
    SendAnnounces(Run(cap, ready), cap, p, h);
    AppendedLater(|Run(cap, actions).log|, Run(cap, ready).log, Note(Run(cap, ready), Send(p, true)), Announced(p, h));
  }

  lemma SendAnnounces(s: State, cap: Capacity, p: nat, h: Hash)
    requires s.pool.caches.Shaped() && Shape(s) && s.next == |s.batch| && h in ListOf(s.annos, p)
    ensures Enabled(s, Send(p, true)) && Announced(p, h) in Note(s, Send(p, true))
    ensures Step(s, cap, Send(p, true)).log == s.log + Note(s, Send(p, true))
  {
    Echo.InOutcome(p, s.annos[p], true);
  }

  lemma AppendedLater(n: nat, log: seq<Event>, more: seq<Event>, e: Event)
    requires n <= |log| && e in more
    ensures e in (log + more)[n..]
  {
    assert (log + more)[n..] == log[n..] + more;
  }

  /** From any reachable state, a peer that knows h, having shown it or been told it, is
      announced h at some later time of some continuation if and only if h is on the list
      that waits for it now. */
  lemma EchoOnlyIfPending(cap: Capacity, actions: seq<Action>, p: nat, h: Hash)
    requires p < |Run(cap, actions).conns| && h in Run(cap, actions).conns[p].known
    ensures (exists longer ::
               && actions <= longer && |Run(cap, actions).log| <= |Run(cap, longer).log|
               && Announced(p, h) in Run(cap, longer).log[|Run(cap, actions).log|..])
            <==> h in ListOf(Run(cap, actions).annos, p)
  {
    if h in ListOf(Run(cap, actions).annos, p) {
      var longer := PendingCanBeSent(cap, actions, p, h);
    } else {
      forall longer | actions <= longer && |Run(cap, actions).log| <= |Run(cap, longer).log|
        ensures Announced(p, h) !in Run(cap, longer).log[|Run(cap, actions).log|..]
      {
        assert longer[..|actions|] == actions;
        BarredForGood(cap, longer, |actions|, p, h);
      }
    }
  }

  /** The packet tells that its sender has h. */
  predicate Shows(a: Action, p: nat, h: Hash) {
    match a
    case HashesArrive(q, hashes) => q == p && h in hashes
    case TxsArrive(q, txs) => q == p && h in Hashes(BeforeNil(txs))
    case _ => false
  }

  /** In terms of packets, for every relay of h: whoever sends a packet showing h while no
      list with h waits for it is never sent an announcement of h afterwards. */
  lemma SenderNeverEchoed(cap: Capacity, actions: seq<Action>, n: nat, p: nat, h: Hash)
    requires n < |actions| && Shows(actions[n], p, h) && p < |Run(cap, actions[..n]).conns|
    requires h !in ListOf(Run(cap, actions[..n]).annos, p)
    ensures |Run(cap, actions[..n]).log| <= |Run(cap, actions).log|
    ensures Announced(p, h) !in Run(cap, actions).log[|Run(cap, actions[..n]).log|..]
  {
    var s, a := Run(cap, actions[..n]), actions[n];
    assert actions[..n + 1][..n] == actions[..n];
    var s' := Run(cap, actions[..n + 1]);
    assert s' == Step(s, cap, a) && Barred(s', p, h);
    BarredForGood(cap, actions, n + 1, p, h);
    NoteIsLogged(s, cap, a);
    LogGrows(cap, actions, n + 1);
    MarksAnnounceNothing(a, s, p, h);
    SplitLog(s.log, Note(s, a), Run(cap, actions).log, Announced(p, h));
  }

  lemma MarksAnnounceNothing(a: Action, s: State, p: nat, h: Hash)
    requires Enabled(s, a) && Shows(a, p, h)
    ensures Announced(p, h) !in Note(s, a)
  {
  }

  lemma SplitLog(start: seq<Event>, more: seq<Event>, log: seq<Event>, e: Event)
    requires start + more <= log && e !in more && e !in log[|start + more|..]
    ensures e !in log[|start|..]
  {
    assert log[|start|..] == more + log[|start + more|..];
  }

  // ----- Every relayed hash has a deliverer -----

  ghost predicate HasOrigin(log: seq<Event>, n: nat, h: Hash)
    requires n <= |log|
  {
    exists m :: 0 <= m < n && log[m].Marked? && log[m].hash == h
  }

  ghost predicate AllOriginate(log: seq<Event>, hashes: seq<Hash>) {
    forall i :: 0 <= i < |hashes| ==> HasOrigin(log, |log|, hashes[i])
  }

  ghost predicate OriginInv(s: State) {
    && (forall i :: 0 <= i < |s.inbox| ==> AllOriginate(s.log, Hashes(s.inbox[i])))
    && (forall i :: 0 <= i < |s.pool.calls| ==> AllOriginate(s.log, Hashes(s.pool.calls[i].batch)))
    && (forall i :: 0 <= i < |s.queue| ==> AllOriginate(s.log, s.queue[i]))
    && AllOriginate(s.log, s.batch)
    && forall k :: 0 <= k < |s.log| && s.log[k].LookedUp? ==> HasOrigin(s.log, k, s.log[k].looked)
  }

  lemma OriginateLonger(log: seq<Event>, more: seq<Event>, hashes: seq<Hash>)
    requires AllOriginate(log, hashes)
    ensures AllOriginate(log + more, hashes)
  {
    forall i | 0 <= i < |hashes| ensures HasOrigin(log + more, |log + more|, hashes[i]) {
      assert HasOrigin(log, |log|, hashes[i]);
      var m :| 0 <= m < |log| && log[m].Marked? && log[m].hash == hashes[i];
      assert (log + more)[m] == log[m];
    }
  }

  lemma {:induction false} AcceptedFromBatch(batch: seq<Transaction>, errs: seq<Option<AddError>>)
    requires |errs| <= |batch|
    ensures forall tx :: tx in Accepted(batch, errs) ==> tx in batch
  {
    if errs != [] {
      AcceptedFromBatch(batch, errs[..|errs| - 1]);
    }
  }

  lemma PartOriginates(log: seq<Event>, part: seq<Transaction>, whole: seq<Transaction>)
    requires AllOriginate(log, Hashes(whole)) && forall tx :: tx in part ==> tx in whole
    ensures AllOriginate(log, Hashes(part))
  {
    forall i | 0 <= i < |part| ensures HasOrigin(log, |log|, Hashes(part)[i]) {
      assert part[i] in whole;
      var k :| 0 <= k < |whole| && whole[k] == part[i];
      assert Hashes(whole)[k] == part[i].hash;
    }
  }

  /** A published batch is part of its call's. */
  lemma QueueKeepsOrigin(s: State, cap: Capacity, a: Action)
    requires PoolInv(s, cap) && OriginInv(s)
    ensures forall b :: b in Step(s, cap, a).queue ==> AllOriginate(s.log, b)
  {
    OnlyPublishQueues(s, cap, a);
    forall b | b in Step(s, cap, a).queue ensures AllOriginate(s.log, b) {
      if b in s.queue {
        var k :| 0 <= k < |s.queue| && s.queue[k] == b;
      } else {
        var c := s.pool.calls[a.step.id];
        assert Admission.CallOk(c);
        AcceptedFromBatch(c.batch, c.errs);
        PartOriginates(s.log, c.out, c.batch);
      }
    }
  }

  lemma PoolKeepsOrigin(s: State, cap: Capacity, step: Admission.Action)
    requires s.pool.caches.Shaped() && OriginInv(s)
    requires step.Begin? ==> AllOriginate(s.log, Hashes(step.batch))
    requires forall b :: b in PoolStep(s, cap, step).queue ==> AllOriginate(s.log, b)
    ensures OriginInv(PoolStep(s, cap, step))
  {
    var s' := PoolStep(s, cap, step);
    forall i | 0 <= i < |s'.pool.calls| ensures AllOriginate(s.log, Hashes(s'.pool.calls[i].batch)) {
      assert i < |s.pool.calls| ==> s'.pool.calls[i].batch == s.pool.calls[i].batch;
    }
  }

  /** The log grows by `more`; every list of the new state is old or was marked in `more`. */
  lemma GrowKeepsOrigin(s: State, s': State, more: seq<Event>)
    requires OriginInv(s) && s'.log == s.log + more && s'.batch == s.batch && s'.queue == s.queue && s'.pool == s.pool
    requires forall i :: 0 <= i < |more| && more[i].LookedUp? ==> HasOrigin(s.log, |s.log|, more[i].looked)
    requires s.inbox <= s'.inbox
    requires forall i :: |s.inbox| <= i < |s'.inbox| ==> AllOriginate(s'.log, Hashes(s'.inbox[i]))
    ensures OriginInv(s')
  {
    forall i | 0 <= i < |s'.inbox| ensures AllOriginate(s'.log, Hashes(s'.inbox[i])) {
      if i < |s.inbox| {
        assert s'.inbox[i] == s.inbox[i];
        OriginateLonger(s.log, more, Hashes(s.inbox[i]));
      }
    }
    forall i | 0 <= i < |s.queue| ensures AllOriginate(s'.log, s.queue[i]) {
      OriginateLonger(s.log, more, s.queue[i]);
    }
    forall i | 0 <= i < |s.pool.calls| ensures AllOriginate(s'.log, Hashes(s.pool.calls[i].batch)) {
      OriginateLonger(s.log, more, Hashes(s.pool.calls[i].batch));
    }
    OriginateLonger(s.log, more, s.batch);
    forall k | 0 <= k < |s'.log| && s'.log[k].LookedUp? ensures HasOrigin(s'.log, k, s'.log[k].looked) {
      var h := s'.log[k].looked;
      var n := if k < |s.log| then k else |s.log|;
      assert k >= |s.log| ==> s'.log[k] == more[k - |s.log|];
      assert HasOrigin(s.log, n, h);
      var m :| 0 <= m < n && s.log[m].Marked? && s.log[m].hash == h;
      assert s'.log[m] == s.log[m];
    }
  }

  lemma PacketKeepsOrigin(s: State, p: nat, txs: seq<Option<Transaction>>)
    requires OriginInv(s) && s.pool.caches.Shaped() && p < |s.conns|
    ensures OriginInv(Step(s, Capacity(1, 1), TxsArrive(p, txs)))
  {
    var s' := Step(s, Capacity(1, 1), TxsArrive(p, txs));
    var hashes := Hashes(BeforeNil(txs));
    forall i | 0 <= i < |hashes| ensures HasOrigin(s'.log, |s'.log|, hashes[i]) {
      assert s'.log[|s.log| + i] == Marked(p, hashes[i]);
    }
    assert s'.log == s.log + s'.log[|s.log|..];
    GrowKeepsOrigin(s, s', s'.log[|s.log|..]);
  }

  lemma SendKeepsOrigin(s: State, p: nat, delivered: bool)
    requires OriginInv(s) && p in s.annos && p < |s.conns|
    ensures OriginInv(SendStep(s, p, delivered))
  {
    GrowKeepsOrigin(s, SendStep(s, p, delivered), Outcome(p, s.annos[p], delivered));
  }

  lemma TakeKeepsOrigin(s: State, cap: Capacity)
    requires s.pool.caches.Shaped() && OriginInv(s) && Enabled(s, Take)
    ensures OriginInv(Step(s, cap, Take))
  {
    var longer := s.(log := s.log + [Taken(s.queue[0])]);
    GrowKeepsOrigin(s, longer, [Taken(s.queue[0])]);
    assert AllOriginate(longer.log, longer.queue[0]);
    var s' := Step(s, cap, Take);
    forall i | 0 <= i < |s'.queue| ensures AllOriginate(s'.log, s'.queue[i]) {
      assert s'.queue[i] == longer.queue[i + 1];
    }
  }

  lemma LookUpKeepsOrigin(s: State)
    requires OriginInv(s) && s.next < |s.batch|
    ensures OriginInv(LookUpStep(s))
  {
    assert HasOrigin(s.log, |s.log|, s.batch[s.next]);
    GrowKeepsOrigin(s, LookUpStep(s), [LookedUp(s.batch[s.next])]);
  }

  lemma StepKeepsOrigin(s: State, cap: Capacity, a: Action)
    requires PoolInv(s, cap) && OriginInv(s)
    ensures OriginInv(Step(s, cap, a))
  {
    if !Enabled(s, a) {
      return;
    }
    match a
    case Submit(i) =>
      QueueKeepsOrigin(s, cap, a);
      PoolKeepsOrigin(s, cap, Admission.Begin(s.inbox[i]));
    case InCall(step) =>
      QueueKeepsOrigin(s, cap, a);
      PoolKeepsOrigin(s, cap, step);
    case TxsArrive(p, txs) => PacketKeepsOrigin(s, p, txs);
    case Send(p, delivered) => SendKeepsOrigin(s, p, delivered);
    case Take => TakeKeepsOrigin(s, cap);
    case LookUp => LookUpKeepsOrigin(s);
    case _ =>
      NoteIsLogged(s, cap, a);
      GrowKeepsOrigin(s, Step(s, cap, a), Note(s, a));
  }

  lemma {:induction false} RunKeepsOrigin(cap: Capacity, actions: seq<Action>)
    ensures OriginInv(Run(cap, actions))
  {
    if actions != [] {
      RunKeepsOrigin(cap, actions[..|actions| - 1]);
      RunKeepsPoolInv(cap, actions[..|actions| - 1]);
      StepKeepsOrigin(Run(cap, actions[..|actions| - 1]), cap, actions[|actions| - 1]);
    }
  }

  /** The position of the first lookup of h. */
  lemma {:induction false} FirstLookUp(log: seq<Event>, h: Hash) returns (k: nat)
    requires LookedUp(h) in log
    ensures k < |log| && log[k] == LookedUp(h) && LookedUp(h) !in log[..k]
  {
    k := |log| - 1;
    if LookedUp(h) in log[..k] {
      var n := k;
      k := FirstLookUp(log[..n], h);
      assert log[..n][..k] == log[..k];
    }
  }

  /** Whatever is relayed was shown by some peer before it was first looked up, and that peer
      never gets it back. */
  lemma DelivererNeverEchoed(cap: Capacity, actions: seq<Action>, h: Hash) returns (q: nat, m: nat)
    requires LookedUp(h) in Run(cap, actions).log
    ensures var log := Run(cap, actions).log;
            && m < |log| && log[m] == Marked(q, h) && LookedUp(h) !in log[..m]
            && Announced(q, h) !in log
  {
    var log := Run(cap, actions).log;
    RunKeepsOrigin(cap, actions);
    var k := FirstLookUp(log, h);
    assert HasOrigin(log, k, h);
    m :| 0 <= m < k && log[m].Marked? && log[m].hash == h;
    q := log[m].conn;
    assert forall x :: 0 <= x < k ==> log[x] in log[..k];
    assert forall x :: 0 <= x < m ==> log[..m][x] == log[..k][x];
    forall j | 0 <= j < |log| ensures log[j] != Announced(q, h) {
      if log[j] == Announced(q, h) {
        NeverBeforeLookUp(cap, actions, j, k, m, h);
      }
    }
  }

  lemma NeverBeforeLookUp(cap: Capacity, actions: seq<Action>, j: nat, k: nat, m: nat, h: Hash)
    requires m < k < |Run(cap, actions).log| && j < |Run(cap, actions).log|
    requires var log := Run(cap, actions).log;
             log[m].Marked? && log[m].hash == h && forall x :: 0 <= x < k ==> log[x] != LookedUp(h)
    ensures Run(cap, actions).log[j] != Announced(Run(cap, actions).log[m].conn, h)
  {
    var log := Run(cap, actions).log;
    if log[j] == Announced(log[m].conn, h) {
      var i := Echo.AnnouncedByOwnRelay(cap, actions, j, log[m].conn, h);
      Echo.ShownLater(log, i, m, log[m].conn, h);
    }
  }
}
