/** Peer sessions: any number of RunPeer calls of both protocols, each a small program
    counter, interleaving with each other and with Stop. */
module Sessions {
  import opened Sequences

  datatype Config = Config(maxPeers: int, snapEnabled: bool, hasSyncer: bool)

  /** Where a session stands. The first group is `eth`, the second `snap`; both end in
      Exiting, where only the deferred WaitGroup.Done is left. */
  datatype Pc =
    | Arrived      // entered RunPeer, waiting for the snap extension
    | Waited       // not yet counted by the WaitGroup
    | Counted      // handshaking
    | Shaken       // about to compare the peer count with the limit
    | Admitted     // passed that check, about to register
    | Registered   // in the peer set, removal deferred, looking itself up
    | Found        // about to register with the snap syncer
    | Running      // handling messages
    | Leaving      // unregisterPeer, looking itself up
    | SnapLeaving  // unregisterPeer, about to tell the snap syncer
    | Removing     // unregisterPeer, about to leave the peer set
    | SnapArrived
    | SnapCounted
    | SnapRunning
    | Exiting
    | Done

  datatype Exit =
    | NotYet | BarrierFailed | HandshakeFailed | TooManyPeers | SetClosed | AlreadyRegistered
    | PeerDropped | SyncerRefused | Finished

  datatype Session = Session(id: nat, trusted: bool, wantsSnap: bool, snap: bool, pc: Pc, exit: Exit)

  /** A registered peer. `owner`, the session that registered it, is bookkeeping. */
  datatype Entry = Entry(owner: nat, snap: bool)

  datatype Event =
    | Registers(who: nat)
    | SnapRegisters(who: nat)
    | SnapUnregisters(who: nat)
    | Removes(who: nat, owner: nat)

  datatype StopPc = NotStopped | Draining | Stopped

  datatype State = State(sessions: seq<Session>, peers: map<nat, Entry>, closed: bool, wg: int, stop: StopPc,
                         log: seq<Event>)

  /** `choice` settles what the model does not decide: handshakes, the snap barrier, the
      syncer's answer. */
  datatype Action =
    | ArriveEth(id: nat, trusted: bool, wantsSnap: bool)
    | ArriveSnap(id: nat)
    | Go(i: nat, choice: bool)
    | Close
    | WaitReturns

  function Init(): State {
    State([], map[], false, 0, NotStopped, [])
  }

  /** What a step does to the peer set: register, remove, or nothing. */
  datatype Effect = Joins | Leaves | Stays

  /** One step of a session: its new program counter and exit reason, whether it carries a
      snap extension, what it adds to the WaitGroup, and what it does outside. */
  datatype Move = Move(pc: Pc, exit: Exit, snap: bool, wait: int, effect: Effect, note: seq<Event>)

  function Goto(me: Session, pc: Pc): Move {
    Move(pc, me.exit, me.snap, 0, Stays, [])
  }

  function Quit(me: Session, pc: Pc, exit: Exit): Move {
    Move(pc, exit, me.snap, 0, Stays, [])
  }

  predicate Entering(pc: Pc) {
    pc.Arrived? || pc.Waited? || pc.Counted? || pc.Shaken? || pc.Admitted?
  }

  predicate Inside(pc: Pc) {
    pc.Registered? || pc.Found? || pc.Running? || pc.Leaving? || pc.SnapLeaving? || pc.Removing?
  }

  /** RunPeer up to and including RegisterPeer. */
  function DecideEntering(cfg: Config, s: State, i: nat, choice: bool): Move
    requires i < |s.sessions| && Entering(s.sessions[i].pc)
  {
    var me := s.sessions[i];
    match me.pc
    case Arrived =>
      if !cfg.snapEnabled then Goto(me, Waited)
      else if choice then Goto(me, Waited).(snap := me.wantsSnap)
      else Quit(me, Done, BarrierFailed)
    case Waited => Goto(me, Counted).(wait := 1)
    case Counted => if choice then Goto(me, Shaken) else Quit(me, Exiting, HandshakeFailed)
    case Shaken =>
      if !me.trusted && |s.peers| >= cfg.maxPeers then Quit(me, Exiting, TooManyPeers) else Goto(me, Admitted)
    case Admitted =>
      if s.closed then Quit(me, Exiting, SetClosed)
      else if me.id in s.peers then Quit(me, Exiting, AlreadyRegistered)
      else Goto(me, Registered).(effect := Joins, note := [Registers(i)])
  }

  /** RunPeer after registration, and the deferred unregisterPeer. */
  function DecideInside(cfg: Config, s: State, i: nat, choice: bool): Move
    requires i < |s.sessions| && Inside(s.sessions[i].pc)
  {
    var me := s.sessions[i];
    match me.pc
    case Registered => if me.id in s.peers then Goto(me, Found) else Quit(me, Leaving, PeerDropped)
    case Found =>
      if !(me.snap && cfg.hasSyncer) then Goto(me, Running)
      else if choice then Goto(me, Running).(note := [SnapRegisters(i)])
      else Quit(me, Leaving, SyncerRefused)
    case Running => Quit(me, Leaving, Finished)
    case Leaving =>
      if me.id !in s.peers then Goto(me, Exiting)
      else if s.peers[me.id].snap && cfg.hasSyncer then Goto(me, SnapLeaving)
      else Goto(me, Removing)
    case SnapLeaving => Goto(me, Removing).(note := [SnapUnregisters(i)])
    case Removing =>
      if me.id !in s.peers then Goto(me, Exiting)
      else Goto(me, Exiting).(effect := Leaves, note := [Removes(i, s.peers[me.id].owner)])
  }

  /** The snap protocol's RunPeer, and the common end. */
  function DecideOther(me: Session, choice: bool): Move {
    match me.pc
    case SnapArrived => Goto(me, SnapCounted).(wait := 1)
    case SnapCounted => if choice then Goto(me, SnapRunning) else Goto(me, Exiting)
    case SnapRunning => Goto(me, Exiting)
    case Exiting => Goto(me, Done).(wait := -1)
    case _ => Goto(me, Done)
  }

  function Decide(cfg: Config, s: State, i: nat, choice: bool): Move
    requires i < |s.sessions|
  {
    if Entering(s.sessions[i].pc) then DecideEntering(cfg, s, i, choice)
    else if Inside(s.sessions[i].pc) then DecideInside(cfg, s, i, choice)
    else DecideOther(s.sessions[i], choice)
  }

  function Moved(me: Session, m: Move): Session {
    me.(pc := m.pc, exit := m.exit, snap := m.snap)
  }

  function PeersAfter(s: State, i: nat, m: Move): map<nat, Entry>
    requires i < |s.sessions|
  {
    match m.effect
    case Joins => s.peers[s.sessions[i].id := Entry(i, m.snap)]
    case Leaves => s.peers - {s.sessions[i].id}
    case Stays => s.peers
  }

  /** One atomic step of session i. */
  function Advance(cfg: Config, s: State, i: nat, choice: bool): State
    requires i < |s.sessions|
  {
    var me, m := s.sessions[i], Decide(cfg, s, i, choice);
    s.(sessions := s.sessions[i := Moved(me, m)],
       peers := PeersAfter(s, i, m),
       wg := s.wg + m.wait,
       log := s.log + m.note)
  }

  function Step(cfg: Config, s: State, a: Action): State {
    match a
    case ArriveEth(id, trusted, wantsSnap) =>
      s.(sessions := s.sessions + [Session(id, trusted, wantsSnap, false, Arrived, NotYet)])
    case ArriveSnap(id) =>
      s.(sessions := s.sessions + [Session(id, false, false, false, SnapArrived, NotYet)])
    case Go(i, choice) => if i < |s.sessions| then Advance(cfg, s, i, choice) else s
    case Close => if s.stop.NotStopped? then s.(closed := true, stop := Draining) else s
    case WaitReturns => if s.stop.Draining? && s.wg == 0 then s.(stop := Stopped) else s
  }

  function Run(cfg: Config, actions: seq<Action>): State {
    if actions == [] then Init()
    else Step(cfg, Run(cfg, actions[..|actions| - 1]), actions[|actions| - 1])
  }

  // ----- Counting sessions -----

  function Indicator(p: Session -> bool): Session -> nat {
    (x: Session) => if p(x) then 1 else 0
  }

  function Count(ss: seq<Session>, p: Session -> bool): nat {
    Sum(ss, Indicator(p))
  }

  lemma CountUpdate(ss: seq<Session>, i: nat, x: Session, p: Session -> bool)
    requires i < |ss|
    ensures Count(ss[i := x], p) + (if p(ss[i]) then 1 else 0) == Count(ss, p) + (if p(x) then 1 else 0)
  {
    SumUpdate(ss, i, x, Indicator(p));
  }

  lemma CountArrival(ss: seq<Session>, x: Session, p: Session -> bool)
    ensures Count(ss + [x], p) == Count(ss, p) + if p(x) then 1 else 0
  {
    assert (ss + [x])[..|ss|] == ss;
  }

  lemma {:induction false} CountZero(ss: seq<Session>, p: Session -> bool, i: nat)
    requires i < |ss| && Count(ss, p) == 0
    ensures !p(ss[i])
  {
    if i < |ss| - 1 {
      CountZero(ss[..|ss| - 1], p, i);
    }
  }

  lemma {:induction false} CountImplied(ss: seq<Session>, p: Session -> bool, q: Session -> bool)
    requires forall x :: p(x) ==> q(x)
    ensures Count(ss, p) <= Count(ss, q)
  {
    if ss != [] {
      CountImplied(ss[..|ss| - 1], p, q);
    }
  }

  /** Sessions between WaitGroup Add and Done. */
  predicate IsCounted(x: Session) {
    !(x.pc.Arrived? || x.pc.Waited? || x.pc.SnapArrived? || x.pc.Done?)
  }

  /** Sessions whose peer is in the peer set. */
  predicate Holds(x: Session) {
    Inside(x.pc)
  }

  predicate HoldsUntrusted(x: Session) {
    Holds(x) && !x.trusted
  }

  /** Untrusted sessions between the capacity check and the registration. */
  predicate InGap(x: Session) {
    x.pc == Admitted && !x.trusted
  }

  function Untrusted(s: State): nat {
    Count(s.sessions, HoldsUntrusted)
  }

  function Gap(s: State): nat {
    Count(s.sessions, InGap)
  }

  // ----- The invariant -----

  /** The peer set and the holding sessions correspond one to one. */
  ghost predicate Owned(s: State) {
    && (forall i :: 0 <= i < |s.sessions| && Holds(s.sessions[i]) ==>
          s.sessions[i].id in s.peers && s.peers[s.sessions[i].id] == Entry(i, s.sessions[i].snap))
    && (forall id :: id in s.peers ==>
          s.peers[id].owner < |s.sessions| && s.sessions[s.peers[id].owner].id == id
              && Holds(s.sessions[s.peers[id].owner]))
  }

  ghost predicate Balanced(s: State) {
    && s.wg == Count(s.sessions, IsCounted)
    && |s.peers| == Count(s.sessions, Holds)
  }

  ghost predicate StopOk(s: State) {
    && (s.stop != NotStopped ==> s.closed)
    && (s.stop == Stopped ==> s.peers == map[])
  }

  ghost predicate Inv(s: State) {
    Owned(s) && Balanced(s) && StopOk(s)
  }

  /** How a step's effect on the peer set matches the session's change of phase. */
  ghost predicate Matches(s: State, me: Session, m: Move) {
    && (Holds(me) ==> m.snap == me.snap)
    && match m.effect
       case Joins => !Holds(me) && Inside(m.pc) && me.id !in s.peers
       case Leaves => Holds(me) && !Inside(m.pc)
       case Stays => Holds(me) == Inside(m.pc)
  }

  /** A step adds to the WaitGroup what it adds to the counted sessions. */
  predicate WaitMatches(me: Session, m: Move) {
    m.wait == (if IsCounted(Moved(me, m)) then 1 else 0) - (if IsCounted(me) then 1 else 0)
  }

  lemma EnteringMatches(cfg: Config, s: State, i: nat, choice: bool)
    requires i < |s.sessions| && Entering(s.sessions[i].pc)
    ensures Matches(s, s.sessions[i], DecideEntering(cfg, s, i, choice))
    ensures WaitMatches(s.sessions[i], DecideEntering(cfg, s, i, choice))
  {
  }

  lemma InsideMatches(cfg: Config, s: State, i: nat, choice: bool)
    requires i < |s.sessions| && Inside(s.sessions[i].pc) && s.sessions[i].id in s.peers
    ensures Matches(s, s.sessions[i], DecideInside(cfg, s, i, choice))
    ensures WaitMatches(s.sessions[i], DecideInside(cfg, s, i, choice))
  {
  }

  lemma OtherMatches(s: State, me: Session, choice: bool)
    requires !Entering(me.pc) && !Inside(me.pc)
    ensures Matches(s, me, DecideOther(me, choice)) && WaitMatches(me, DecideOther(me, choice))
  {
  }

  lemma EffectMatches(cfg: Config, s: State, i: nat, choice: bool)
    requires i < |s.sessions| && (Holds(s.sessions[i]) ==> s.sessions[i].id in s.peers)
    ensures Matches(s, s.sessions[i], Decide(cfg, s, i, choice))
    ensures WaitMatches(s.sessions[i], Decide(cfg, s, i, choice))
  {
    if Entering(s.sessions[i].pc) {
      EnteringMatches(cfg, s, i, choice);
    } else if Inside(s.sessions[i].pc) {
      InsideMatches(cfg, s, i, choice);
    } else {
      OtherMatches(s, s.sessions[i], choice);
    }
  }

  lemma AdvanceKeepsOwned(cfg: Config, s: State, i: nat, choice: bool)
    requires Owned(s) && i < |s.sessions|
    ensures Owned(Advance(cfg, s, i, choice))
  {
    EffectMatches(cfg, s, i, choice);
    OwnedAfter(s, i, Decide(cfg, s, i, choice), Advance(cfg, s, i, choice));
  }

  lemma OwnedAfter(s: State, i: nat, m: Move, s': State)
    requires Owned(s) && i < |s.sessions| && Matches(s, s.sessions[i], m)
    requires s'.sessions == s.sessions[i := Moved(s.sessions[i], m)]
    requires s'.peers == PeersAfter(s, i, m)
    ensures Owned(s')
  {
  }

  lemma AdvanceKeepsHeldCount(cfg: Config, s: State, i: nat, choice: bool)
    requires Owned(s) && i < |s.sessions| && |s.peers| == Count(s.sessions, Holds)
    ensures |Advance(cfg, s, i, choice).peers| == Count(Advance(cfg, s, i, choice).sessions, Holds)
  {
    var m := Decide(cfg, s, i, choice);
    EffectMatches(cfg, s, i, choice);
    HeldCountAfter(s, i, m);
  }

  lemma HeldCountAfter(s: State, i: nat, m: Move)
    requires Owned(s) && i < |s.sessions| && |s.peers| == Count(s.sessions, Holds) && Matches(s, s.sessions[i], m)
    ensures |PeersAfter(s, i, m)| == Count(s.sessions[i := Moved(s.sessions[i], m)], Holds)
  {
    var me := s.sessions[i];
    CountUpdate(s.sessions, i, Moved(me, m), Holds);
    if m.effect.Leaves? {
      assert s.peers == (s.peers - {me.id})[me.id := s.peers[me.id]];
    }
  }

  lemma AdvanceKeepsWaitCount(cfg: Config, s: State, i: nat, choice: bool)
    requires Owned(s) && i < |s.sessions| && s.wg == Count(s.sessions, IsCounted)
    ensures Advance(cfg, s, i, choice).wg == Count(Advance(cfg, s, i, choice).sessions, IsCounted)
  {
    EffectMatches(cfg, s, i, choice);
    CountUpdate(s.sessions, i, Moved(s.sessions[i], Decide(cfg, s, i, choice)), IsCounted);
  }

  lemma AdvanceKeepsStopOk(cfg: Config, s: State, i: nat, choice: bool)
    requires Inv(s) && i < |s.sessions|
    ensures StopOk(Advance(cfg, s, i, choice))
  {
  }

  /** With nobody counted, nobody holds a registration. */
  lemma NobodyCounted(s: State)
    requires Inv(s) && s.wg == 0
    ensures s.peers == map[]
  {
    if s.peers != map[] {
      assert s.peers.Keys != {};
      var id :| id in s.peers;
      CountZero(s.sessions, IsCounted, s.peers[id].owner);
      assert false;
    }
  }

  lemma ArrivalKeepsInv(s: State, x: Session)
    requires Inv(s) && !IsCounted(x) && !Holds(x)
    ensures Inv(s.(sessions := s.sessions + [x]))
  {
    CountArrival(s.sessions, x, IsCounted);
    CountArrival(s.sessions, x, Holds);
  }

  lemma StepKeepsInv(cfg: Config, s: State, a: Action)
    requires Inv(s)
    ensures Inv(Step(cfg, s, a))
  {
    match a
    case Go(i, choice) =>
      if i < |s.sessions| {
        AdvanceKeepsOwned(cfg, s, i, choice);
        AdvanceKeepsHeldCount(cfg, s, i, choice);
        AdvanceKeepsWaitCount(cfg, s, i, choice);
        AdvanceKeepsStopOk(cfg, s, i, choice);
      }
    case WaitReturns =>
      if s.wg == 0 {
        NobodyCounted(s);
      }
    case Close =>
    case ArriveEth(id, trusted, wantsSnap) =>
      ArrivalKeepsInv(s, Session(id, trusted, wantsSnap, false, Arrived, NotYet));
    case ArriveSnap(id) =>
      ArrivalKeepsInv(s, Session(id, false, false, false, SnapArrived, NotYet));
  }

  lemma {:induction false} RunKeepsInv(cfg: Config, actions: seq<Action>)
    ensures Inv(Run(cfg, actions))
  {
    if actions != [] {
      RunKeepsInv(cfg, actions[..|actions| - 1]);
      StepKeepsInv(cfg, Run(cfg, actions[..|actions| - 1]), actions[|actions| - 1]);
    }
  }

  // ----- Shutdown -----

  lemma {:induction false} StoppedStays(cfg: Config, actions: seq<Action>, n: nat)
    requires n <= |actions| && Run(cfg, actions[..n]).stop == Stopped
    ensures Run(cfg, actions).stop == Stopped
  {
    if n < |actions| {
      assert actions[..|actions| - 1][..n] == actions[..n];
      StoppedStays(cfg, actions[..|actions| - 1], n);
    } else {
      assert actions[..n] == actions;
    }
  }

  /** Once Stop has returned the peer set is empty, and no later step of any session, old
      or new, ever fills it again. */
  lemma StoppedMeansEmpty(cfg: Config, actions: seq<Action>, n: nat)
    requires n <= |actions| && Run(cfg, actions[..n]).stop == Stopped
    ensures Run(cfg, actions).peers == map[]
  {
    StoppedStays(cfg, actions, n);
    RunKeepsInv(cfg, actions);
  }

  /** The WaitGroup counts the sessions between Add and Done, so it never goes negative,
      and every registered peer belongs to exactly one of them. */
  lemma WaitGroupCovers(cfg: Config, actions: seq<Action>)
    ensures var s := Run(cfg, actions);
            s.wg == Count(s.sessions, IsCounted) && |s.peers| == Count(s.sessions, Holds)
    ensures var s := Run(cfg, actions);
            forall id :: id in s.peers ==>
              exists i ::
                && 0 <= i < |s.sessions| && IsCounted(s.sessions[i]) && Holds(s.sessions[i]) && s.sessions[i].id == id
                && forall j :: 0 <= j < |s.sessions| && Holds(s.sessions[j]) && s.sessions[j].id == id ==> j == i
  {
    RunKeepsInv(cfg, actions);
    OneSessionEach(Run(cfg, actions));
  }

  lemma OneSessionEach(s: State)
    requires Owned(s)
    ensures forall id :: id in s.peers ==>
              exists i ::
                && 0 <= i < |s.sessions| && IsCounted(s.sessions[i]) && Holds(s.sessions[i]) && s.sessions[i].id == id
                && forall j :: 0 <= j < |s.sessions| && Holds(s.sessions[j]) && s.sessions[j].id == id ==> j == i
  {
    forall id | id in s.peers
      ensures exists i ::
                && 0 <= i < |s.sessions| && IsCounted(s.sessions[i]) && Holds(s.sessions[i]) && s.sessions[i].id == id
                && forall j :: 0 <= j < |s.sessions| && Holds(s.sessions[j]) && s.sessions[j].id == id ==> j == i
    {
      var i := s.peers[id].owner;
      assert s.sessions[i].id == id && Holds(s.sessions[i]);
    }
  }

  // ----- Register and unregister pair up -----

  function HistoryOf(log: seq<Event>, i: nat): seq<Event> {
    if log == [] then []
    else HistoryOf(log[..|log| - 1], i) + if log[|log| - 1].who == i then [log[|log| - 1]] else []
  }

  lemma {:induction false} HistoryAppend(log: seq<Event>, more: seq<Event>, i: nat)
    requires |more| <= 1
    ensures HistoryOf(log + more, i) == HistoryOf(log, i) + if more != [] && more[0].who == i then more else []
  {
    if more == [] {
      assert log + more == log;
    } else {
      assert (log + more)[..|log|] == log;
    }
  }

  /** The events a session may have caused when it stands at x.pc. */
  ghost predicate HistoryOk(cfg: Config, i: nat, x: Session, h: seq<Event>) {
    var told := x.snap && cfg.hasSyncer;
    match x.pc
    case Registered | Found => h == [Registers(i)]
    case Running => h == [Registers(i)] + if told then [SnapRegisters(i)] else []
    case Leaving => h == [Registers(i)] || (told && h == [Registers(i), SnapRegisters(i)])
    case SnapLeaving => told && (h == [Registers(i)] || h == [Registers(i), SnapRegisters(i)])
    case Removing => BeforeRemoval(i, told, h)
    case Exiting | Done => h == [] || Complete(i, told, h)
    case _ => h == []
  }

  ghost predicate BeforeRemoval(i: nat, told: bool, h: seq<Event>) {
    if told then h == [Registers(i), SnapUnregisters(i)] || h == [Registers(i), SnapRegisters(i), SnapUnregisters(i)]
    else h == [Registers(i)]
  }

  /** One registration, one removal of that same registration, and between them the syncer
      is told to forget the peer whenever it may have been told about it. */
  ghost predicate Complete(i: nat, told: bool, h: seq<Event>) {
    h != [] && h[|h| - 1] == Removes(i, i) && BeforeRemoval(i, told, h[..|h| - 1])
  }

  /** Exits taken before the peer was registered. */
  predicate TurnedAway(e: Exit) {
    e.BarrierFailed? || e.HandshakeFailed? || e.TooManyPeers? || e.SetClosed? || e.AlreadyRegistered?
  }

  /** Why a session ended: only untrusted ones are turned away for the limit, only after
      Close for a closed set, a registered peer is never missing, and a session that was
      turned away caused nothing. */
  ghost predicate ExitOk(s: State, x: Session, h: seq<Event>) {
    && !x.exit.PeerDropped?
    && (x.exit.TooManyPeers? ==> !x.trusted)
    && (x.exit.SetClosed? ==> s.closed)
    && (TurnedAway(x.exit) ==> h == [] && (x.pc.Exiting? || x.pc.Done?))
    && (x.exit.SyncerRefused? || x.exit.Finished? ==> h != [])
    && (!x.exit.NotYet? ==> !Entering(x.pc))
  }

  ghost predicate SessionOk(cfg: Config, s: State, i: nat)
    requires i < |s.sessions|
  {
    HistoryOk(cfg, i, s.sessions[i], HistoryOf(s.log, i)) && ExitOk(s, s.sessions[i], HistoryOf(s.log, i))
  }

  ghost predicate Histories(cfg: Config, s: State) {
    && (forall i :: 0 <= i < |s.sessions| ==> SessionOk(cfg, s, i))
    && (forall i :: |s.sessions| <= i ==> HistoryOf(s.log, i) == [])
  }

  lemma MoveNotes(cfg: Config, s: State, i: nat, choice: bool)
    requires i < |s.sessions|
    ensures var m := Decide(cfg, s, i, choice); |m.note| <= 1 && forall e :: e in m.note ==> e.who == i
  {
    if Entering(s.sessions[i].pc) {
      assert Decide(cfg, s, i, choice) == DecideEntering(cfg, s, i, choice);
    } else if Inside(s.sessions[i].pc) {
      assert Decide(cfg, s, i, choice) == DecideInside(cfg, s, i, choice);
    } else {
      assert Decide(cfg, s, i, choice) == DecideOther(s.sessions[i], choice);
    }
  }

  lemma EnteringKeepsHistory(cfg: Config, s: State, i: nat, choice: bool, h: seq<Event>)
    requires i < |s.sessions| && Entering(s.sessions[i].pc)
    requires HistoryOk(cfg, i, s.sessions[i], h) && ExitOk(s, s.sessions[i], h)
    ensures var m := DecideEntering(cfg, s, i, choice);
            HistoryOk(cfg, i, Moved(s.sessions[i], m), h + m.note) && ExitOk(s, Moved(s.sessions[i], m), h + m.note)
  {
  }

  lemma InsideKeepsHistory(cfg: Config, s: State, i: nat, choice: bool, h: seq<Event>)
    requires i < |s.sessions| && Inside(s.sessions[i].pc)
    requires var me := s.sessions[i]; me.id in s.peers && s.peers[me.id] == Entry(i, me.snap)
    requires HistoryOk(cfg, i, s.sessions[i], h) && ExitOk(s, s.sessions[i], h)
    ensures var m := DecideInside(cfg, s, i, choice);
            HistoryOk(cfg, i, Moved(s.sessions[i], m), h + m.note) && ExitOk(s, Moved(s.sessions[i], m), h + m.note)
  {
    InsideHistoryOk(cfg, s, i, choice, h);
    InsideExitOk(cfg, s, i, choice, h);
  }

  lemma InsideExitOk(cfg: Config, s: State, i: nat, choice: bool, h: seq<Event>)
    requires i < |s.sessions| && Inside(s.sessions[i].pc) && s.sessions[i].id in s.peers
    requires h != [] && ExitOk(s, s.sessions[i], h)
    ensures var m := DecideInside(cfg, s, i, choice); ExitOk(s, Moved(s.sessions[i], m), h + m.note)
  {
  }

  lemma InsideHistoryOk(cfg: Config, s: State, i: nat, choice: bool, h: seq<Event>)
    requires i < |s.sessions| && Inside(s.sessions[i].pc)
    requires var me := s.sessions[i]; me.id in s.peers && s.peers[me.id] == Entry(i, me.snap)
    requires HistoryOk(cfg, i, s.sessions[i], h)
    ensures var m := DecideInside(cfg, s, i, choice); HistoryOk(cfg, i, Moved(s.sessions[i], m), h + m.note)
  {
    var me, m := s.sessions[i], DecideInside(cfg, s, i, choice);
    if me.pc.Removing? {
      RemovalCompletes(cfg, i, me, h);
    } else if me.pc.SnapLeaving? {
      assert m.note == [SnapUnregisters(i)];
    } else if m.note == [] {
      assert h + m.note == h;
    } else {
      assert me.pc.Found? && m.note == [SnapRegisters(i)];
    }
  }

  lemma RemovalCompletes(cfg: Config, i: nat, x: Session, h: seq<Event>)
    requires x.pc.Removing? && HistoryOk(cfg, i, x, h)
    ensures Complete(i, x.snap && cfg.hasSyncer, h + [Removes(i, i)])
  {
    assert (h + [Removes(i, i)])[..|h|] == h;
  }

  lemma OtherKeepsHistory(cfg: Config, s: State, i: nat, choice: bool, h: seq<Event>)
    requires i < |s.sessions| && !Entering(s.sessions[i].pc) && !Inside(s.sessions[i].pc)
    requires HistoryOk(cfg, i, s.sessions[i], h) && ExitOk(s, s.sessions[i], h)
    ensures var m := DecideOther(s.sessions[i], choice);
            HistoryOk(cfg, i, Moved(s.sessions[i], m), h + m.note) && ExitOk(s, Moved(s.sessions[i], m), h + m.note)
  {
    assert h + [] == h;
  }

  lemma MoveKeepsHistory(cfg: Config, s: State, i: nat, choice: bool, h: seq<Event>)
    requires Owned(s) && i < |s.sessions| && HistoryOk(cfg, i, s.sessions[i], h) && ExitOk(s, s.sessions[i], h)
    ensures var m := Decide(cfg, s, i, choice);
            HistoryOk(cfg, i, Moved(s.sessions[i], m), h + m.note) && ExitOk(s, Moved(s.sessions[i], m), h + m.note)
  {
    if Entering(s.sessions[i].pc) {
      EnteringKeepsHistory(cfg, s, i, choice, h);
    } else if Inside(s.sessions[i].pc) {
      InsideKeepsHistory(cfg, s, i, choice, h);
    } else {
      OtherKeepsHistory(cfg, s, i, choice, h);
    }
  }

  lemma HistoriesAfter(cfg: Config, s: State, i: nat, m: Move, s': State)
    requires Histories(cfg, s) && i < |s.sessions|
    requires s'.sessions == s.sessions[i := Moved(s.sessions[i], m)] && s'.log == s.log + m.note
             && s'.closed == s.closed
    requires |m.note| <= 1 && forall e :: e in m.note ==> e.who == i
    requires HistoryOk(cfg, i, s'.sessions[i], HistoryOf(s.log, i) + m.note)
    requires ExitOk(s', s'.sessions[i], HistoryOf(s.log, i) + m.note)
    ensures Histories(cfg, s')
  {
    forall j: nat ensures HistoryOf(s'.log, j) == if j == i then HistoryOf(s.log, j) + m.note else HistoryOf(s.log, j) {
      HistoryAppend(s.log, m.note, j);
    }
    forall j | 0 <= j < |s'.sessions| ensures SessionOk(cfg, s', j) {
      assert SessionOk(cfg, s, j);
    }
  }

  lemma AdvanceKeepsHistories(cfg: Config, s: State, i: nat, choice: bool)
    requires Owned(s) && Histories(cfg, s) && i < |s.sessions|
    ensures Histories(cfg, Advance(cfg, s, i, choice))
  {
    assert SessionOk(cfg, s, i);
    MoveNotes(cfg, s, i, choice);
    MoveKeepsHistory(cfg, s, i, choice, HistoryOf(s.log, i));
    HistoriesAfter(cfg, s, i, Decide(cfg, s, i, choice), Advance(cfg, s, i, choice));
  }

  lemma StepKeepsHistories(cfg: Config, s: State, a: Action)
    requires Owned(s) && Histories(cfg, s)
    ensures Histories(cfg, Step(cfg, s, a))
  {
    if a.Go? {
      if a.i < |s.sessions| {
        AdvanceKeepsHistories(cfg, s, a.i, a.choice);
      }
    } else {
      var s' := Step(cfg, s, a);
      forall j | 0 <= j < |s'.sessions| ensures SessionOk(cfg, s', j) {
        if j < |s.sessions| {
          assert SessionOk(cfg, s, j);
        } else {
          assert HistoryOf(s.log, j) == [];
        }
      }
    }
  }

  lemma {:induction false} RunKeepsHistories(cfg: Config, actions: seq<Action>)
    ensures Histories(cfg, Run(cfg, actions))
  {
    if actions != [] {
      RunKeepsHistories(cfg, actions[..|actions| - 1]);
      RunKeepsInv(cfg, actions[..|actions| - 1]);
      StepKeepsHistories(cfg, Run(cfg, actions[..|actions| - 1]), actions[|actions| - 1]);
    }
  }

  /** Every finished session either caused nothing or registered once, was unregistered
      from the syncer when one applies, and removed exactly its own registration. */
  lemma FinishedSessionsPair(cfg: Config, actions: seq<Action>, i: nat)
    requires i < |Run(cfg, actions).sessions| && Run(cfg, actions).sessions[i].pc == Done
    ensures var s := Run(cfg, actions);
            var x, h := s.sessions[i], HistoryOf(s.log, i);
            && (h == [] || Complete(i, x.snap && cfg.hasSyncer, h))
            && (TurnedAway(x.exit) ==> h == [])
            && (x.exit.SyncerRefused? || x.exit.Finished? ==> h != [])
  {
    RunKeepsHistories(cfg, actions);
    assert SessionOk(cfg, Run(cfg, actions), i);
  }

  /** Nobody ever removes another session's registration. */
  lemma OnlyOwnersRemove(cfg: Config, actions: seq<Action>, k: nat)
    requires k < |Run(cfg, actions).log| && Run(cfg, actions).log[k].Removes?
    ensures Run(cfg, actions).log[k].owner == Run(cfg, actions).log[k].who
  {
    var s := Run(cfg, actions);
    var i := s.log[k].who;
    RunKeepsHistories(cfg, actions);
    InHistory(s.log, k);
    if i < |s.sessions| {
      assert SessionOk(cfg, s, i);
      RemovalIsOwn(cfg, i, s.sessions[i], HistoryOf(s.log, i), s.log[k]);
    }
  }

  lemma RemovalIsOwn(cfg: Config, i: nat, x: Session, h: seq<Event>, e: Event)
    requires HistoryOk(cfg, i, x, h) && e in h && e.Removes?
    ensures e == Removes(i, i)
  {
    if h != [] && h[|h| - 1] == Removes(i, i) {
      assert h == h[..|h| - 1] + [h[|h| - 1]];
    }
  }

  /** Session i has told the snap syncer about its peer and not yet told it to forget. */
  predicate InSyncer(log: seq<Event>, i: nat) {
    SnapRegisters(i) in HistoryOf(log, i) && SnapUnregisters(i) !in HistoryOf(log, i)
  }

  lemma InSyncerHolds(cfg: Config, i: nat, x: Session, h: seq<Event>)
    requires HistoryOk(cfg, i, x, h) && SnapRegisters(i) in h && SnapUnregisters(i) !in h
    ensures Holds(x)
  {
    if (x.pc.Exiting? || x.pc.Done?) && h != [] {
      assert h == h[..|h| - 1] + [h[|h| - 1]];
    }
  }

  /** The snap syncer's own set: a session it knows of is still registered, so it is the only
      one of its id, and a session about to unregister never takes another one's entry. */
  lemma SyncerEntriesAreOwn(cfg: Config, actions: seq<Action>, i: nat, j: nat)
    requires i < |Run(cfg, actions).sessions| && j < |Run(cfg, actions).sessions|
    requires InSyncer(Run(cfg, actions).log, i)
    requires Run(cfg, actions).sessions[i].id == Run(cfg, actions).sessions[j].id
    ensures Holds(Run(cfg, actions).sessions[i])
    ensures Holds(Run(cfg, actions).sessions[j]) || InSyncer(Run(cfg, actions).log, j) ==> i == j
  {
    var s := Run(cfg, actions);
    RunKeepsHistories(cfg, actions);
    RunKeepsInv(cfg, actions);
    assert SessionOk(cfg, s, i) && SessionOk(cfg, s, j);
    InSyncerHolds(cfg, i, s.sessions[i], HistoryOf(s.log, i));
    if InSyncer(s.log, j) {
      InSyncerHolds(cfg, j, s.sessions[j], HistoryOf(s.log, j));
    }
  }

  /** A registered peer is always found again: the error branches for a peer that went
      missing are never taken. */
  lemma RegisteredPeersAreFound(cfg: Config, actions: seq<Action>, i: nat)
    requires i < |Run(cfg, actions).sessions|
    ensures var x := Run(cfg, actions).sessions[i];
            && !x.exit.PeerDropped?
            && (Holds(x) ==> x.id in Run(cfg, actions).peers && Run(cfg, actions).peers[x.id].owner == i)
  {
    RunKeepsHistories(cfg, actions);
    RunKeepsInv(cfg, actions);
    assert SessionOk(cfg, Run(cfg, actions), i);
  }

  lemma {:induction false} InHistory(log: seq<Event>, k: nat)
    requires k < |log|
    ensures log[k] in HistoryOf(log, log[k].who)
  {
    if k < |log| - 1 {
      InHistory(log[..|log| - 1], k);
    }
  }

  // ----- The real capacity bound -----

  /** A session enters the gap only while the set is below the limit, and an untrusted
      session joins the set only from the gap. */
  lemma GapRules(cfg: Config, s: State, i: nat, choice: bool)
    requires i < |s.sessions|
    ensures var me := s.sessions[i];
            var me' := Moved(me, Decide(cfg, s, i, choice));
            && me'.trusted == me.trusted
            && (InGap(me') ==> |s.peers| < cfg.maxPeers && !Holds(me) && !InGap(me))
            && (Holds(me') && !Holds(me) ==> me.pc == Admitted)
  {
    if Entering(s.sessions[i].pc) {
      assert Decide(cfg, s, i, choice) == DecideEntering(cfg, s, i, choice);
    } else if Inside(s.sessions[i].pc) {
      assert Decide(cfg, s, i, choice) == DecideInside(cfg, s, i, choice);
    } else {
      assert Decide(cfg, s, i, choice) == DecideOther(s.sessions[i], choice);
    }
  }

  function Limit(cfg: Config, w: nat): int {
    if cfg.maxPeers >= 1 then cfg.maxPeers - 1 + w else 0
  }

  lemma AdvanceKeepsCapacity(cfg: Config, s: State, i: nat, choice: bool, w: nat)
    requires Inv(s) && 1 <= w && i < |s.sessions| && Gap(Advance(cfg, s, i, choice)) <= w
    requires Untrusted(s) + Gap(s) <= Limit(cfg, w)
    ensures var s' := Advance(cfg, s, i, choice); Untrusted(s') + Gap(s') <= Limit(cfg, w)
  {
    var me' := Moved(s.sessions[i], Decide(cfg, s, i, choice));
    GapRules(cfg, s, i, choice);
    CountUpdate(s.sessions, i, me', HoldsUntrusted);
    CountUpdate(s.sessions, i, me', InGap);
    CountImplied(s.sessions, HoldsUntrusted, Holds);
  }

  lemma CapacityStep(cfg: Config, s: State, a: Action, w: nat)
    requires Inv(s) && 1 <= w && Gap(Step(cfg, s, a)) <= w
    requires Untrusted(s) + Gap(s) <= Limit(cfg, w)
    ensures Untrusted(Step(cfg, s, a)) + Gap(Step(cfg, s, a)) <= Limit(cfg, w)
  {
    if a.Go? {
      if a.i < |s.sessions| {
        AdvanceKeepsCapacity(cfg, s, a.i, a.choice, w);
      }
    } else {
      OthersLeaveCapacity(cfg, s, a);
    }
  }

  lemma OthersLeaveCapacity(cfg: Config, s: State, a: Action)
    requires !a.Go?
    ensures Untrusted(Step(cfg, s, a)) == Untrusted(s) && Gap(Step(cfg, s, a)) == Gap(s)
  {
    if a.ArriveEth? || a.ArriveSnap? {
      var x := Step(cfg, s, a).sessions[|s.sessions|];
      CountArrival(s.sessions, x, HoldsUntrusted);
      CountArrival(s.sessions, x, InGap);
    }
  }

  /** If at most w untrusted sessions are ever between the check and the registration at
      once, then registered untrusted peers plus those sessions never exceed
      maxPeers - 1 + w. With w == 1 the configured limit holds. */
  lemma {:induction false} CapacityBound(cfg: Config, actions: seq<Action>, w: nat)
    requires 1 <= w
    requires GapWithin(cfg, actions, w)
    ensures var s := Run(cfg, actions);
            && Untrusted(s) + Gap(s) <= Limit(cfg, w)
            && (cfg.maxPeers >= 1 ==> Untrusted(s) + Gap(s) <= cfg.maxPeers - 1 + w)
            && (cfg.maxPeers < 1 ==> Untrusted(s) + Gap(s) == 0)
  {
    if actions != [] {
      var p := actions[..|actions| - 1];
      assert forall k :: 0 <= k <= |p| ==> p[..k] == actions[..k];
      CapacityBound(cfg, p, w);
      RunKeepsInv(cfg, p);
      assert actions[..|actions|] == actions;
      CapacityStep(cfg, Run(cfg, p), actions[|actions| - 1], w);
    }
  }

  // ----- The bound is reached -----

  /** r registered and g waiting in the gap, all untrusted, nobody else. */
  ghost predicate Crowd(s: State, r: nat, g: nat) {
    && !s.closed && |s.sessions| == r + g
    && (forall i :: 0 <= i < r + g ==> s.sessions[i].id == i && !s.sessions[i].trusted)
    && (forall i :: r <= i < r + g ==> s.sessions[i].pc == Admitted)
    && (forall id :: id in s.peers ==> id < r)
    && |s.peers| == r && Untrusted(s) == r && Gap(s) == g
  }

  ghost predicate GapWithin(cfg: Config, actions: seq<Action>, w: nat) {
    forall k :: 0 <= k <= |actions| ==> Gap(Run(cfg, actions[..k])) <= w
  }

  lemma Extend(cfg: Config, actions: seq<Action>, a: Action, w: nat) returns (longer: seq<Action>)
    requires GapWithin(cfg, actions, w) && Gap(Step(cfg, Run(cfg, actions), a)) <= w
    ensures longer == actions + [a] && Run(cfg, longer) == Step(cfg, Run(cfg, actions), a) && GapWithin(cfg, longer, w)
  {
    longer := actions + [a];
    assert longer[..|actions|] == actions;
    forall k | 0 <= k <= |longer| ensures Gap(Run(cfg, longer[..k])) <= w {
      assert k <= |actions| ==> longer[..k] == actions[..k];
      assert k > |actions| ==> longer[..k] == longer;
    }
  }

  /** s is base with one untrusted session of its own id added, standing at pc. */
  ghost predicate Newcomer(base: State, s: State, pc: Pc) {
    var n := |base.sessions|;
    && |s.sessions| == n + 1 && s.sessions[..n] == base.sessions
    && s.sessions[n].id == n && !s.sessions[n].trusted && s.sessions[n].pc == pc
    && s.peers == base.peers && s.closed == base.closed && Untrusted(s) == Untrusted(base)
    && Gap(s) == Gap(base) + if pc.Admitted? then 1 else 0
  }

  function NextPc(pc: Pc): Pc {
    match pc case Arrived => Waited case Waited => Counted case Counted => Shaken case _ => Admitted
  }

  lemma LastAdvances(cfg: Config, base: State, actions: seq<Action>, w: nat, pc: Pc) returns (longer: seq<Action>)
    requires GapWithin(cfg, actions, w) && Newcomer(base, Run(cfg, actions), pc)
    requires pc.Arrived? || pc.Waited? || pc.Counted? || (pc.Shaken? && |base.peers| < cfg.maxPeers)
    requires Gap(base) < w
    ensures GapWithin(cfg, longer, w) && Newcomer(base, Run(cfg, longer), NextPc(pc))
  {
    var s, n := Run(cfg, actions), |base.sessions|;
    NewcomerAdvances(cfg, base, s, pc);
    longer := Extend(cfg, actions, Go(n, true), w);
  }

  lemma NewcomerAdvances(cfg: Config, base: State, s: State, pc: Pc)
    requires Newcomer(base, s, pc)
    requires pc.Arrived? || pc.Waited? || pc.Counted? || (pc.Shaken? && |base.peers| < cfg.maxPeers)
    ensures Newcomer(base, Advance(cfg, s, |base.sessions|, true), NextPc(pc))
  {
    var n := |base.sessions|;
    var m := DecideEntering(cfg, s, n, true);
    assert Decide(cfg, s, n, true) == m && m.pc == NextPc(pc) && m.effect.Stays?;
    CountUpdate(s.sessions, n, Moved(s.sessions[n], m), InGap);
    CountUpdate(s.sessions, n, Moved(s.sessions[n], m), HoldsUntrusted);
    assert Advance(cfg, s, n, true).sessions[..n] == s.sessions[..n];
  }

  lemma OneArrives(cfg: Config, actions: seq<Action>, w: nat) returns (longer: seq<Action>)
    requires GapWithin(cfg, actions, w) && Gap(Run(cfg, actions)) <= w
    ensures GapWithin(cfg, longer, w) && Newcomer(Run(cfg, actions), Run(cfg, longer), Arrived)
  {
    var s := Run(cfg, actions);
    var x := Session(|s.sessions|, false, false, false, Arrived, NotYet);
    CountArrival(s.sessions, x, HoldsUntrusted);
    CountArrival(s.sessions, x, InGap);
    longer := Extend(cfg, actions, ArriveEth(|s.sessions|, false, false), w);
  }

  lemma NewcomerJoinsCrowd(base: State, s: State, r: nat, g: nat)
    requires Crowd(base, r, g) && Newcomer(base, s, Admitted)
    ensures Crowd(s, r, g + 1)
  {
    assert forall i :: 0 <= i < r + g ==> s.sessions[i] == s.sessions[..r + g][i];
  }

  /** One more untrusted session walks into the gap. */
  lemma EnterGap(cfg: Config, actions: seq<Action>, r: nat, g: nat, w: nat) returns (longer: seq<Action>)
    requires GapWithin(cfg, actions, w) && Crowd(Run(cfg, actions), r, g) && r < cfg.maxPeers && g < w
    ensures GapWithin(cfg, longer, w) && Crowd(Run(cfg, longer), r, g + 1)
  {
    var base := Run(cfg, actions);
    longer := OneArrives(cfg, actions, w);
    longer := LastAdvances(cfg, base, longer, w, Arrived);
    longer := LastAdvances(cfg, base, longer, w, Waited);
    longer := LastAdvances(cfg, base, longer, w, Counted);
    longer := LastAdvances(cfg, base, longer, w, Shaken);
    NewcomerJoinsCrowd(base, Run(cfg, longer), r, g);
  }

  /** The first session in the gap registers. */
  lemma LeaveGap(cfg: Config, actions: seq<Action>, r: nat, g: nat, w: nat) returns (longer: seq<Action>)
    requires GapWithin(cfg, actions, w) && Crowd(Run(cfg, actions), r, g) && 1 <= g <= w
    ensures GapWithin(cfg, longer, w) && Crowd(Run(cfg, longer), r + 1, g - 1)
  {
    FirstRegisters(cfg, Run(cfg, actions), r, g);
    longer := Extend(cfg, actions, Go(r, true), w);
  }

  lemma FirstRegisters(cfg: Config, s: State, r: nat, g: nat)
    requires Crowd(s, r, g) && 1 <= g
    ensures Crowd(Advance(cfg, s, r, true), r + 1, g - 1)
  {
    var m := DecideEntering(cfg, s, r, true);
    assert s.sessions[r].pc == Admitted && s.sessions[r].id == r && r !in s.peers;
    assert Decide(cfg, s, r, true) == m && m.pc == Registered && m.effect == Joins;
    CountUpdate(s.sessions, r, Moved(s.sessions[r], m), InGap);
    CountUpdate(s.sessions, r, Moved(s.sessions[r], m), HoldsUntrusted);
  }

  lemma {:induction false} FillOneByOne(cfg: Config, r: nat, w: nat) returns (actions: seq<Action>)
    requires r < cfg.maxPeers && 1 <= w
    ensures GapWithin(cfg, actions, w) && Crowd(Run(cfg, actions), r, 0)
  {
    actions := [];
    if r > 0 {
      actions := FillOneByOne(cfg, r - 1, w);
      actions := EnterGap(cfg, actions, r - 1, 0, w);
      actions := LeaveGap(cfg, actions, r - 1, 1, w);
    }
  }

  lemma {:induction false} CrowdTheGap(cfg: Config, g: nat, w: nat) returns (actions: seq<Action>)
    requires 1 <= cfg.maxPeers && g <= w && 1 <= w
    ensures GapWithin(cfg, actions, w) && Crowd(Run(cfg, actions), cfg.maxPeers - 1, g)
  {
    if g == 0 {
      actions := FillOneByOne(cfg, cfg.maxPeers - 1, w);
    } else {
      actions := CrowdTheGap(cfg, g - 1, w);
      actions := EnterGap(cfg, actions, cfg.maxPeers - 1, g - 1, w);
    }
  }

  lemma {:induction false} EmptyTheGap(cfg: Config, n: nat, w: nat) returns (actions: seq<Action>)
    requires 1 <= cfg.maxPeers && n <= w && 1 <= w
    ensures GapWithin(cfg, actions, w) && Crowd(Run(cfg, actions), cfg.maxPeers - 1 + n, w - n)
  {
    if n == 0 {
      actions := CrowdTheGap(cfg, w, w);
    } else {
      actions := EmptyTheGap(cfg, n - 1, w);
      actions := LeaveGap(cfg, actions, cfg.maxPeers - 1 + (n - 1), w - (n - 1), w);
    }
  }

  /** For every limit and every w there is a run with at most w sessions in the gap that
      ends with maxPeers - 1 + w untrusted peers registered. */
  lemma CapacityBoundReached(cfg: Config, w: nat)
    requires 1 <= cfg.maxPeers && 1 <= w
    ensures exists actions :: GapWithin(cfg, actions, w) && Untrusted(Run(cfg, actions)) == cfg.maxPeers - 1 + w
  {
    var actions := EmptyTheGap(cfg, w, w);
  }
}
