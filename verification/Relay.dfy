/** From a peer's packet to announcements, as one machine: packets mark the sender's
    known-set and start AddRemotes calls, the calls publish batches, and the broadcast loop
    looks up who does not know each transaction and then hands every peer its list.
    Packets, connections, the steps of all calls and the loop's own steps interleave freely. */
module Relay {
  import opened Types
  import opened Sequences
  import opened PoolModel
  import opened Batches
  import Admission

  /** One connection. Its known-set only grows; a reconnecting peer is a new connection. */
  datatype Conn = Conn(known: set<Hash>, live: bool)

  /** The history: connections coming and going, packets showing hashes, and the broadcast
      loop's work: a batch taken, a hash looked up, announcements sent or dropped. */
  datatype Event =
    | Joined(conn: nat)
    | Left(conn: nat)
    | Marked(conn: nat, hash: Hash)
    | Taken(batch: seq<Hash>)
    | LookedUp(looked: Hash)
    | Announced(to: nat, what: Hash)
    | Dropped(to: nat, what: Hash)

  /** `inbox`: transaction packets handed to the fetcher. `pool`: the pool and its running
      calls. `queue`: published batches not yet taken. `batch`, `next`: the batch being
      relayed and how much of it was looked up. `annos`: the lists built for it and not yet
      sent. `loop`: whether the broadcast loop still runs. */
  datatype State = State(conns: seq<Conn>, inbox: seq<seq<Transaction>>, pool: Admission.State,
                         queue: seq<seq<Hash>>, batch: seq<Hash>, next: nat, annos: map<nat, seq<Hash>>,
                         log: seq<Event>, loop: Loop)

  /** Stop unsubscribes the loop from the pool; it ends the next time it selects that. */
  datatype Loop = Listening | Unsubscribed | Ended

  datatype Action =
    | Connect
    | Disconnect(conn: nat)
    | HashesArrive(conn: nat, hashes: seq<Hash>)
    | TxsArrive(conn: nat, txs: seq<Option<Transaction>>)
    | Submit(packet: nat)
    | InCall(step: Admission.Action)
    | Take
    | LookUp
    | Send(conn: nat, delivered: bool)
    | Unsubscribe
    | Quit

  function Init(): State {
    State([], [], Admission.Init(), [], [], 0, map[], [], Listening)
  }

  function Marks(p: nat, hashes: seq<Hash>): seq<Event> {
    seq(|hashes|, i requires 0 <= i < |hashes| => Marked(p, hashes[i]))
  }

  function MarkAll(s: State, p: nat, hashes: seq<Hash>): State
    requires p < |s.conns|
  {
    s.(conns := s.conns[p := s.conns[p].(known := s.conns[p].known + Elements(hashes))],
       log := s.log + Marks(p, hashes))
  }

  /** A step of some AddRemotes call; what it publishes joins the broadcast loop's queue. */
  function PoolStep(s: State, cap: Capacity, a: Admission.Action): (s': State)
    requires s.pool.caches.Shaped()
    ensures s'.pool.caches.Shaped()
  {
    var pool := Admission.Step(s.pool, cap, a);
    s.(pool := pool, queue := s.queue + NewBatches(s.pool, pool))
  }

  function NewBatches(p: Admission.State, p': Admission.State): seq<seq<Hash>> {
    if |p'.events| > |p.events| then [Hashes(p'.events[|p.events|])] else []
  }

  /** Connections that are registered and do not know h: PeersWithoutTransaction. */
  function Uninformed(conns: seq<Conn>, h: Hash): set<nat> {
    set p | 0 <= p < |conns| && conns[p].live && h !in conns[p].known
  }

  function ListOf(annos: map<nat, seq<Hash>>, p: nat): seq<Hash> {
    if p in annos then annos[p] else []
  }

  function LookUpStep(s: State): State
    requires s.next < |s.batch|
  {
    var h := s.batch[s.next];
    var to := Uninformed(s.conns, h);
    s.(next := s.next + 1,
       annos := map p | p in s.annos.Keys + to :: ListOf(s.annos, p) + if p in to then [h] else [],
       log := s.log + [LookedUp(h)])
  }

  function Outcome(p: nat, list: seq<Hash>, delivered: bool): seq<Event> {
    seq(|list|, i requires 0 <= i < |list| => if delivered then Announced(p, list[i]) else Dropped(p, list[i]))
  }

  /** AsyncSendPooledTransactionHashes: queue the list and mark it known, or drop it when
      the connection is gone. */
  function SendStep(s: State, p: nat, delivered: bool): State
    requires p in s.annos && p < |s.conns|
  {
    var list := s.annos[p];
    s.(annos := s.annos - {p},
       conns := if delivered then s.conns[p := s.conns[p].(known := s.conns[p].known + Elements(list))] else s.conns,
       log := s.log + Outcome(p, list, delivered))
  }

  /** All looked up, nothing left to send: the loop is back at its select. */
  predicate Idle(s: State) {
    s.next == |s.batch| && s.annos == map[]
  }

  predicate Enabled(s: State, a: Action) {
    match a
    case Connect => true
    case Disconnect(p) => p < |s.conns|
    case HashesArrive(p, _) => p < |s.conns|
    case TxsArrive(p, _) => p < |s.conns|
    case Submit(i) => i < |s.inbox|
    case InCall(step) => !step.Begin? && Admission.Enabled(s.pool, step)
    case Take => s.loop != Ended && Idle(s) && s.queue != []
    case Unsubscribe => s.loop == Listening
    case Quit => s.loop == Unsubscribed && Idle(s)
    case LookUp => s.next < |s.batch|
    case Send(p, delivered) =>
      s.next == |s.batch| && p in s.annos && p < |s.conns| && (delivered || !s.conns[p].live)
  }

  function Step(s: State, cap: Capacity, a: Action): (s': State)
    requires s.pool.caches.Shaped()
    ensures s'.pool.caches.Shaped()
  {
    if !Enabled(s, a) then s else
    match a
    case Connect => s.(conns := s.conns + [Conn({}, true)], log := s.log + [Joined(|s.conns|)])
    case Disconnect(p) => s.(conns := s.conns[p := s.conns[p].(live := false)], log := s.log + [Left(p)])
    case HashesArrive(p, hashes) => MarkAll(s, p, hashes)
    case TxsArrive(p, txs) =>
      var good := BeforeNil(txs);
      var marked := MarkAll(s, p, Hashes(good));
      if |good| == |txs| then marked.(inbox := s.inbox + [good]) else marked
    case Submit(i) => PoolStep(s, cap, Admission.Begin(s.inbox[i]))
    case InCall(step) => PoolStep(s, cap, step)
    case Take => s.(queue := s.queue[1..], batch := s.queue[0], next := 0, log := s.log + [Taken(s.queue[0])])
    case LookUp => LookUpStep(s)
    case Send(p, delivered) => SendStep(s, p, delivered)
    case Unsubscribe => s.(loop := Unsubscribed)
    case Quit => s.(loop := Ended)
  }

  function Run(cap: Capacity, actions: seq<Action>): (s: State)
    ensures s.pool.caches.Shaped()
  {
    if actions == [] then Init()
    else Step(Run(cap, actions[..|actions| - 1]), cap, actions[|actions| - 1])
  }

  // ----- The log -----

  /** What an enabled action adds to the log. */
  function Note(s: State, a: Action): seq<Event>
    requires Enabled(s, a)
  {
    match a
    case Connect => [Joined(|s.conns|)]
    case Disconnect(p) => [Left(p)]
    case HashesArrive(p, hashes) => Marks(p, hashes)
    case TxsArrive(p, txs) => Marks(p, Hashes(BeforeNil(txs)))
    case Submit(_) => []
    case InCall(_) => []
    case Take => [Taken(s.queue[0])]
    case LookUp => [LookedUp(s.batch[s.next])]
    case Send(p, delivered) => Outcome(p, s.annos[p], delivered)
    case Unsubscribe => []
    case Quit => []
  }

  lemma NoteIsLogged(s: State, cap: Capacity, a: Action)
    requires s.pool.caches.Shaped() && Enabled(s, a)
    ensures Step(s, cap, a).log == s.log + Note(s, a)
  {
  }

  lemma StepGrowsLog(s: State, cap: Capacity, a: Action)
    requires s.pool.caches.Shaped()
    ensures s.log <= Step(s, cap, a).log
  {
    if Enabled(s, a) {
      NoteIsLogged(s, cap, a);
    }
  }

  lemma {:induction false} LogGrows(cap: Capacity, actions: seq<Action>, n: nat)
    requires n <= |actions|
    ensures Run(cap, actions[..n]).log <= Run(cap, actions).log
    decreases |actions|
  {
    if n < |actions| {
      assert actions[..|actions| - 1][..n] == actions[..n];
      LogGrows(cap, actions[..|actions| - 1], n);
      StepGrowsLog(Run(cap, actions[..|actions| - 1]), cap, actions[|actions| - 1]);
    } else {
      assert actions[..n] == actions;
    }
  }

  // ----- The pool inside -----

  predicate Publishes(s: State, a: Action) {
    a.InCall? && a.step.Publish? && Enabled(s, a)
  }

  ghost predicate PoolInv(s: State, cap: Capacity) {
    Admission.Inv(s.pool, cap) && Admission.AllSinceBegun(s.pool)
  }

  lemma PoolStepKeepsInv(p: Admission.State, cap: Capacity, step: Admission.Action)
    requires Admission.Inv(p, cap) && Admission.AllSinceBegun(p)
    ensures Admission.Inv(Admission.Step(p, cap, step), cap) && Admission.AllSinceBegun(Admission.Step(p, cap, step))
  {
    Admission.StepKeepsInv(p, cap, step);
    Admission.StepKeepsSinceBegun(p, cap, step);
  }

  lemma OthersLeavePool(s: State, cap: Capacity, a: Action)
    requires s.pool.caches.Shaped() && !(Enabled(s, a) && (a.Submit? || a.InCall?))
    ensures Step(s, cap, a).pool == s.pool
  {
  }

  lemma StepKeepsPoolInv(s: State, cap: Capacity, a: Action)
    requires PoolInv(s, cap)
    ensures PoolInv(Step(s, cap, a), cap)
  {
    if Enabled(s, a) && a.Submit? {
      PoolStepKeepsInv(s.pool, cap, Admission.Begin(s.inbox[a.packet]));
    } else if Enabled(s, a) && a.InCall? {
      PoolStepKeepsInv(s.pool, cap, a.step);
    } else {
      OthersLeavePool(s, cap, a);
    }
  }

  lemma {:induction false} RunKeepsPoolInv(cap: Capacity, actions: seq<Action>)
    ensures PoolInv(Run(cap, actions), cap)
  {
    if actions == [] {
      Admission.RunKeepsInv(cap, []);
    } else {
      RunKeepsPoolInv(cap, actions[..|actions| - 1]);
      StepKeepsPoolInv(Run(cap, actions[..|actions| - 1]), cap, actions[|actions| - 1]);
    }
  }

  /** The pool of this machine goes through a run of the admission machine, so all that
      holds in every such run holds here. */
  lemma {:induction false} PoolRuns(cap: Capacity, actions: seq<Action>) returns (steps: seq<Admission.Action>)
    ensures Run(cap, actions).pool == Admission.Run(cap, steps)
  {
    steps := [];
    if actions != [] {
      steps := PoolRuns(cap, actions[..|actions| - 1]);
      var s, a := Run(cap, actions[..|actions| - 1]), actions[|actions| - 1];
      if Enabled(s, a) && (a.Submit? || a.InCall?) {
        var step := if a.Submit? then Admission.Begin(s.inbox[a.packet]) else a.step;
        assert (steps + [step])[..|steps|] == steps;
        steps := steps + [step];
      }
    }
  }

  /** What a step adds to the queue: the batch of a publishing call, if it is not empty. */
  lemma OnlyPublishQueues(s: State, cap: Capacity, a: Action)
    requires s.pool.caches.Shaped()
    ensures forall b :: b in Step(s, cap, a).queue ==>
              b in s.queue || (Publishes(s, a) && b == Hashes(s.pool.calls[a.step.id].out))
  {
  }

  // ----- After Stop -----

  predicate FromLoop(e: Event) {
    e.Taken? || e.LookedUp? || e.Announced? || e.Dropped?
  }

  lemma EndedStaysIdle(s: State, cap: Capacity, a: Action)
    requires s.pool.caches.Shaped() && (s.loop == Ended ==> Idle(s))
    ensures var s' := Step(s, cap, a);
            && (s'.loop == Ended ==> Idle(s')) && (s.loop == Ended ==> s'.loop == Ended)
            && (s.loop == Ended && Enabled(s, a) ==> forall e :: e in Note(s, a) ==> !FromLoop(e))
  {
  }

  /** Once Stop has ended the broadcast loop, the batch in hand has been relayed whole, and
      nothing is taken, looked up, announced or dropped any more, whatever else happens. */
  lemma {:induction false} EndedForGood(cap: Capacity, actions: seq<Action>, n: nat)
    requires n <= |actions|
    ensures Run(cap, actions).loop == Ended ==> Idle(Run(cap, actions))
    ensures Run(cap, actions[..n]).loop == Ended ==>
              && Run(cap, actions).loop == Ended && |Run(cap, actions[..n]).log| <= |Run(cap, actions).log|
              && forall e :: e in Run(cap, actions).log[|Run(cap, actions[..n]).log|..] ==> !FromLoop(e)
    decreases |actions|
  {
    if actions != [] {
      var before := actions[..|actions| - 1];
      var s, a := Run(cap, before), actions[|actions| - 1];
      EndedForGood(cap, before, if n < |actions| then n else |before|);
      EndedStaysIdle(s, cap, a);
      if n < |actions| {
        assert before[..n] == actions[..n];
        if Enabled(s, a) {
          NoteIsLogged(s, cap, a);
          Suffix(|Run(cap, actions[..n]).log|, s.log, Note(s, a));
        }
      } else {
        assert actions[..n] == actions;
      }
    }
  }

  lemma StepMovesLoop(s: State, cap: Capacity, a: Action)
    requires s.pool.caches.Shaped()
    ensures Step(s, cap, a).loop == Listening <==> s.loop == Listening && !a.Unsubscribe?
    ensures Step(s, cap, a).loop == Ended <==> s.loop == Ended || (a.Quit? && s.loop == Unsubscribed && Idle(s))
  {
  }

  lemma {:induction false} ListensUntilStop(cap: Capacity, actions: seq<Action>)
    ensures Run(cap, actions).loop == Listening <==> Unsubscribe !in actions
    decreases |actions|
  {
    if actions != [] {
      ListensUntilStop(cap, actions[..|actions| - 1]);
      StepMovesLoop(Run(cap, actions[..|actions| - 1]), cap, actions[|actions| - 1]);
      assert actions == actions[..|actions| - 1] + [actions[|actions| - 1]];
    }
  }

  /** The loop is unsubscribed exactly by Stop, and a step ends it exactly after that, between
      two batches. */
  lemma LoopFollowsStop(cap: Capacity, actions: seq<Action>, a: Action)
    ensures var s := Run(cap, actions);
            && (s.loop == Listening <==> Unsubscribe !in actions)
            && (Step(s, cap, a).loop == Ended != s.loop
                <==> a == Quit && s.loop != Ended && Unsubscribe in actions && Idle(s))
  {
    ListensUntilStop(cap, actions);
    StepMovesLoop(Run(cap, actions), cap, a);
  }

  lemma Suffix(n: nat, log: seq<Event>, more: seq<Event>)
    ensures n <= |log| ==> (log + more)[n..] == log[n..] + more
  {
  }

  // ----- Every published batch is looked up, once and in order -----

  /** The batches taken so far. */
  function TakenIn(log: seq<Event>): seq<seq<Hash>> {
    if log == [] then []
    else
      var before := TakenIn(log[..|log| - 1]);
      match log[|log| - 1] case Taken(b) => before + [b] case _ => before
  }

  /** The hashes looked up so far. */
  function LookedUpIn(log: seq<Event>): seq<Hash> {
    if log == [] then []
    else
      var before := LookedUpIn(log[..|log| - 1]);
      match log[|log| - 1] case LookedUp(h) => before + [h] case _ => before
  }

  lemma {:induction false} Unrelated(log: seq<Event>, more: seq<Event>)
    requires forall e :: e in more ==> !e.Taken? && !e.LookedUp?
    ensures TakenIn(log + more) == TakenIn(log) && LookedUpIn(log + more) == LookedUpIn(log)
    decreases |more|
  {
    if more == [] {
      assert log + more == log;
    } else {
      var n := |more| - 1;
      Unrelated(log, more[..n]);
      assert (log + more)[..|log + more| - 1] == log + more[..n];
    }
  }

  /** The batches of all events of a pool, as hashes. */
  function Published(events: seq<seq<Transaction>>): seq<seq<Hash>> {
    if events == [] then [] else Published(events[..|events| - 1]) + [Hashes(events[|events| - 1])]
  }

  /** Lookups follow the batches taken, the current one up to `next`; batches taken and
      batches waiting are the published ones. */
  ghost predicate InOrder(s: State) {
    && s.next <= |s.batch|
    && (if TakenIn(s.log) == [] then s.batch == [] else s.batch == TakenIn(s.log)[|TakenIn(s.log)| - 1])
    && LookedUpIn(s.log) + s.batch[s.next..] == Flatten(TakenIn(s.log))
    && TakenIn(s.log) + s.queue == Published(s.pool.events)
  }

  lemma PoolStepInOrder(s: State, cap: Capacity, step: Admission.Action)
    requires s.pool.caches.Shaped() && InOrder(s)
    ensures InOrder(PoolStep(s, cap, step))
  {
    var s' := PoolStep(s, cap, step);
    if |s'.pool.events| > |s.pool.events| {
      assert s'.pool.events[..|s.pool.events|] == s.pool.events;
      assert TakenIn(s.log) + s'.queue == TakenIn(s.log) + s.queue + [Hashes(s'.pool.events[|s.pool.events|])];
    } else {
      assert s'.pool.events == s.pool.events && s'.queue == s.queue;
    }
  }

  lemma TakeInOrder(s: State, cap: Capacity)
    requires s.pool.caches.Shaped() && InOrder(s) && Enabled(s, Take)
    ensures InOrder(Step(s, cap, Take))
  {
    var s' := Step(s, cap, Take);
    TakenOneMore(s.log, s.queue[0]);
    assert LookedUpIn(s.log) + s.batch[s.next..] == LookedUpIn(s.log);
    FlattenSnoc(TakenIn(s.log), s.queue[0]);
    assert TakenIn(s.log) + s.queue == TakenIn(s.log) + [s.queue[0]] + s.queue[1..];
    assert s'.batch[s'.next..] == s.queue[0];
  }

  lemma TakenOneMore(log: seq<Event>, b: seq<Hash>)
    ensures TakenIn(log + [Taken(b)]) == TakenIn(log) + [b]
    ensures LookedUpIn(log + [Taken(b)]) == LookedUpIn(log)
  {
    assert (log + [Taken(b)])[..|log|] == log;
  }

  lemma LookUpInOrder(s: State)
    requires InOrder(s) && s.next < |s.batch|
    ensures InOrder(LookUpStep(s))
  {
    var s' := LookUpStep(s);
    assert s'.log[..|s.log|] == s.log;
    assert s.batch[s.next..] == [s.batch[s.next]] + s.batch[s.next + 1..];
  }

  lemma StepInOrder(s: State, cap: Capacity, a: Action)
    requires s.pool.caches.Shaped() && InOrder(s)
    ensures InOrder(Step(s, cap, a))
  {
    if !Enabled(s, a) {
      return;
    }
    match a
    case Submit(i) => PoolStepInOrder(s, cap, Admission.Begin(s.inbox[i]));
    case InCall(step) => PoolStepInOrder(s, cap, step);
    case Take => TakeInOrder(s, cap);
    case LookUp => LookUpInOrder(s);
    case _ => OthersInOrder(s, cap, a);
  }

  lemma OthersInOrder(s: State, cap: Capacity, a: Action)
    requires s.pool.caches.Shaped() && InOrder(s) && Enabled(s, a)
    requires !a.Submit? && !a.InCall? && !a.Take? && !a.LookUp?
    ensures InOrder(Step(s, cap, a))
  {
    NoteIsLogged(s, cap, a);
    Unrelated(s.log, Note(s, a));
  }

  /** In every run the hashes looked up are those of the published batches, batch by batch in
      the order they were published; whenever the loop is back at its select, exactly the
      taken batches have been looked up whole. */
  lemma {:induction false} BatchesInOrder(cap: Capacity, actions: seq<Action>)
    ensures InOrder(Run(cap, actions))
    ensures var s := Run(cap, actions); Idle(s) ==> LookedUpIn(s.log) == Flatten(TakenIn(s.log))
    decreases |actions|
  {
    if actions != [] {
      BatchesInOrder(cap, actions[..|actions| - 1]);
      StepInOrder(Run(cap, actions[..|actions| - 1]), cap, actions[|actions| - 1]);
    }
  }
}
