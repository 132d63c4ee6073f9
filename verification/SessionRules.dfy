/** What a session carries, what it has caused at every point, when it is refused, and what
    Stop waits for: all read off the peer, the configuration and the actions. */
module SessionRules {
  import opened Sessions

  // ----- Who arrived -----

  /** A session as it arrived. */
  function Newcomers(actions: seq<Action>): seq<Session> {
    if actions == [] then []
    else
      Newcomers(actions[..|actions| - 1]) +
      match actions[|actions| - 1]
      case ArriveEth(id, trusted, wantsSnap) => [Session(id, trusted, wantsSnap, false, Arrived, NotYet)]
      case ArriveSnap(id) => [Session(id, false, false, false, SnapArrived, NotYet)]
      case _ => []
  }

  /** x is the peer that arrived as `first`, further on. */
  predicate SamePeer(first: Session, x: Session) {
    x.id == first.id && x.trusted == first.trusted && x.wantsSnap == first.wantsSnap
  }

  /** The snap extension is there exactly when the node waits for it, the peer wants it, and
      the barrier was passed. */
  predicate Carries(cfg: Config, x: Session) {
    x.snap <==> cfg.snapEnabled && x.wantsSnap && x.pc != Arrived && x.exit != BarrierFailed
  }

  ghost predicate PeersOk(cfg: Config, ss: seq<Session>, first: seq<Session>) {
    |ss| == |first| && forall i :: 0 <= i < |ss| ==> SamePeer(first[i], ss[i]) && Carries(cfg, ss[i])
  }

  lemma MoveCarries(cfg: Config, s: State, i: nat, choice: bool)
    requires i < |s.sessions| && Carries(cfg, s.sessions[i]) && Placed(cfg, s.sessions[i])
    ensures Carries(cfg, Moved(s.sessions[i], Decide(cfg, s, i, choice)))
  {
    if Entering(s.sessions[i].pc) {
      assert Decide(cfg, s, i, choice) == DecideEntering(cfg, s, i, choice);
    } else if Inside(s.sessions[i].pc) {
      assert Decide(cfg, s, i, choice) == DecideInside(cfg, s, i, choice);
    } else {
      assert Decide(cfg, s, i, choice) == DecideOther(s.sessions[i], choice);
    }
  }

  lemma StepKeepsPeers(cfg: Config, s: State, a: Action, first: seq<Session>)
    requires PeersOk(cfg, s.sessions, first)
    requires forall i :: 0 <= i < |s.sessions| ==> Placed(cfg, s.sessions[i])
    ensures a.Go? || a.Close? || a.WaitReturns? ==> PeersOk(cfg, Step(cfg, s, a).sessions, first)
  {
    if a.Go? && a.i < |s.sessions| {
      MoveCarries(cfg, s, a.i, a.choice);
    }
  }

  /** In every run, the sessions are the peers that arrived, in order, and past the barrier
      one carries the snap extension if and only if snap is enabled and the peer wants it. */
  lemma {:induction false} RunCarries(cfg: Config, actions: seq<Action>)
    ensures PeersOk(cfg, Run(cfg, actions).sessions, Newcomers(actions))
    decreases |actions|
  {
    if actions != [] {
      var before, a := actions[..|actions| - 1], actions[|actions| - 1];
      RunCarries(cfg, before);
      HistoryIsExact(cfg, before);
      StepKeepsPeers(cfg, Run(cfg, before), a, Newcomers(before));
    }
  }

  // ----- What a session has caused -----

  function Told(cfg: Config, x: Session, e: Event): seq<Event> {
    if x.snap && cfg.hasSyncer then [e] else []
  }

  /** The snap syncer has accepted the peer, if it was asked at all. */
  predicate WasRun(x: Session) {
    x.pc.Running? || x.exit.Finished?
  }

  /** Everything a session has caused, given where it stands and why it ended. */
  function Caused(cfg: Config, i: nat, x: Session): seq<Event> {
    var joined := [Registers(i)] + if WasRun(x) then Told(cfg, x, SnapRegisters(i)) else [];
    if Entering(x.pc) then []
    else if x.pc.Removing? then joined + Told(cfg, x, SnapUnregisters(i))
    else if Inside(x.pc) then joined
    else if x.exit.SyncerRefused? || x.exit.Finished? then
      joined + Told(cfg, x, SnapUnregisters(i)) + [Removes(i, i)]
    else []
  }

  /** Reasons and places fit together. */
  predicate Placed(cfg: Config, x: Session) {
    && (Entering(x.pc) || x.pc.Registered? || x.pc.Found? || x.pc.Running? ==> x.exit.NotYet?)
    && (x.pc.Leaving? || x.pc.SnapLeaving? || x.pc.Removing? ==> x.exit.SyncerRefused? || x.exit.Finished?)
    && (x.pc.SnapArrived? || x.pc.SnapCounted? || x.pc.SnapRunning? ==> x.exit.NotYet?)
    && (x.pc.SnapLeaving? || x.exit.SyncerRefused? ==> x.snap && cfg.hasSyncer)
    && !x.exit.PeerDropped?
  }

  lemma EnteringCauses(cfg: Config, s: State, i: nat, choice: bool)
    requires i < |s.sessions| && Entering(s.sessions[i].pc) && Placed(cfg, s.sessions[i])
    ensures var me, m := s.sessions[i], DecideEntering(cfg, s, i, choice);
            Placed(cfg, Moved(me, m)) && Caused(cfg, i, Moved(me, m)) == Caused(cfg, i, me) + m.note
  {
  }

  lemma InsideCauses(cfg: Config, s: State, i: nat, choice: bool)
    requires i < |s.sessions| && Inside(s.sessions[i].pc) && Placed(cfg, s.sessions[i])
    requires var me := s.sessions[i]; me.id in s.peers && s.peers[me.id] == Entry(i, me.snap)
    ensures var me, m := s.sessions[i], DecideInside(cfg, s, i, choice);
            Placed(cfg, Moved(me, m)) && Caused(cfg, i, Moved(me, m)) == Caused(cfg, i, me) + m.note
  {
  }

  lemma OtherCauses(cfg: Config, i: nat, me: Session, choice: bool)
    requires !Entering(me.pc) && !Inside(me.pc) && Placed(cfg, me)
    ensures var m := DecideOther(me, choice);
            Placed(cfg, Moved(me, m)) && Caused(cfg, i, Moved(me, m)) == Caused(cfg, i, me) + m.note
  {
  }

  lemma MoveCauses(cfg: Config, s: State, i: nat, choice: bool)
    requires Owned(s) && i < |s.sessions| && Placed(cfg, s.sessions[i])
    ensures var me, m := s.sessions[i], Decide(cfg, s, i, choice);
            Placed(cfg, Moved(me, m)) && Caused(cfg, i, Moved(me, m)) == Caused(cfg, i, me) + m.note
  {
    if Entering(s.sessions[i].pc) {
      EnteringCauses(cfg, s, i, choice);
    } else if Inside(s.sessions[i].pc) {
      InsideCauses(cfg, s, i, choice);
    } else {
      OtherCauses(cfg, i, s.sessions[i], choice);
    }
  }

  ghost predicate ExactAt(cfg: Config, i: nat, x: Session, history: seq<Event>) {
    Placed(cfg, x) && history == Caused(cfg, i, x)
  }

  ghost predicate Exact(cfg: Config, ss: seq<Session>, log: seq<Event>) {
    && (forall i :: 0 <= i < |ss| ==> ExactAt(cfg, i, ss[i], HistoryOf(log, i)))
    && (forall i :: |ss| <= i ==> HistoryOf(log, i) == [])
  }

  lemma AdvanceKeepsExact(cfg: Config, s: State, i: nat, choice: bool)
    requires Owned(s) && i < |s.sessions| && Exact(cfg, s.sessions, s.log)
    ensures var s' := Advance(cfg, s, i, choice); Exact(cfg, s'.sessions, s'.log)
  {
    var m := Decide(cfg, s, i, choice);
    MoveCauses(cfg, s, i, choice);
    MoveNotes(cfg, s, i, choice);
    ExactAfter(cfg, s.sessions, s.log, i, Moved(s.sessions[i], m), m.note);
  }

  lemma ExactAfter(cfg: Config, ss: seq<Session>, log: seq<Event>, i: nat, x: Session, note: seq<Event>)
    requires Exact(cfg, ss, log) && i < |ss| && Placed(cfg, x)
    requires Caused(cfg, i, x) == Caused(cfg, i, ss[i]) + note
    requires |note| <= 1 && forall e :: e in note ==> e.who == i
    ensures Exact(cfg, ss[i := x], log + note)
  {
    forall j: nat ensures HistoryOf(log + note, j) == HistoryOf(log, j) + if j == i then note else [] {
      HistoryAppend(log, note, j);
    }
    forall j | 0 <= j < |ss| ensures ExactAt(cfg, j, ss[i := x][j], HistoryOf(log + note, j)) {
      assert ExactAt(cfg, j, ss[j], HistoryOf(log, j));
      if j != i {
        assert HistoryOf(log, j) + [] == HistoryOf(log, j);
      }
    }
  }

  lemma StepKeepsExact(cfg: Config, s: State, a: Action)
    requires Owned(s) && Exact(cfg, s.sessions, s.log)
    ensures Exact(cfg, Step(cfg, s, a).sessions, Step(cfg, s, a).log)
  {
    if a.Go? {
      if a.i < |s.sessions| {
        AdvanceKeepsExact(cfg, s, a.i, a.choice);
      }
    } else if a.ArriveEth? || a.ArriveSnap? {
      ArrivalKeepsExact(cfg, s.sessions, s.log, Step(cfg, s, a).sessions[|s.sessions|]);
    }
  }

  lemma ArrivalKeepsExact(cfg: Config, ss: seq<Session>, log: seq<Event>, x: Session)
    requires Exact(cfg, ss, log) && x.exit.NotYet? && (x.pc.Arrived? || x.pc.SnapArrived?)
    ensures Exact(cfg, ss + [x], log)
  {
    assert HistoryOf(log, |ss|) == [];
  }

  /** In every run, what a session has caused is settled by where it stands, why it ended,
      and whether it carries a snap extension: nothing before it registers; the snap syncer
      is told of its peer when one applies, and told to forget it even if it refused. */
  lemma {:induction false} HistoryIsExact(cfg: Config, actions: seq<Action>)
    ensures Exact(cfg, Run(cfg, actions).sessions, Run(cfg, actions).log)
    decreases |actions|
  {
    if actions != [] {
      var before := actions[..|actions| - 1];
      HistoryIsExact(cfg, before);
      RunKeepsInv(cfg, before);
      StepKeepsExact(cfg, Run(cfg, before), actions[|actions| - 1]);
    }
  }

  lemma {:induction false} HistoryIsLogged(log: seq<Event>, i: nat, e: Event)
    requires e.who == i
    ensures e in HistoryOf(log, i) <==> e in log
  {
    if log != [] {
      HistoryIsLogged(log[..|log| - 1], i, e);
      assert log == log[..|log| - 1] + [log[|log| - 1]];
    }
  }

  /** While a session handles messages, the snap syncer knows its peer if and only if snap is
      enabled, the peer wants it, and there is a syncer; and once it has ended that way, the
      syncer was told to forget the peer under just that condition. */
  lemma SyncerIsTold(cfg: Config, actions: seq<Action>, i: nat)
    requires i < |Run(cfg, actions).sessions|
    ensures var s := Run(cfg, actions);
            var x, applies := s.sessions[i], cfg.snapEnabled && s.sessions[i].wantsSnap && cfg.hasSyncer;
            && (x.pc.Running? ==> (SnapRegisters(i) in s.log <==> applies) && SnapUnregisters(i) !in s.log)
            && (x.pc.Done? && x.exit.Finished? ==>
                  (SnapRegisters(i) in s.log <==> applies) && (SnapUnregisters(i) in s.log <==> applies))
            && (x.exit.SyncerRefused? ==> applies && SnapRegisters(i) !in s.log)
  {
    var s := Run(cfg, actions);
    HistoryIsExact(cfg, actions);
    RunCarries(cfg, actions);
    HistoryIsLogged(s.log, i, SnapRegisters(i));
    HistoryIsLogged(s.log, i, SnapUnregisters(i));
  }

  // ----- Who is refused -----

  lemma {:induction false} ClosedIff(cfg: Config, actions: seq<Action>)
    ensures Run(cfg, actions).closed <==> Close in actions
    ensures Run(cfg, actions).stop == NotStopped <==> Close !in actions
    decreases |actions|
  {
    if actions != [] {
      ClosedIff(cfg, actions[..|actions| - 1]);
      assert actions == actions[..|actions| - 1] + [actions[|actions| - 1]];
    }
  }

  /** Another session has registered this peer and not yet removed it. */
  ghost predicate Occupied(s: State, i: nat)
    requires i < |s.sessions|
  {
    exists j :: 0 <= j < |s.sessions| && j != i && Holds(s.sessions[j]) && s.sessions[j].id == s.sessions[i].id
  }

  lemma InSetMeansOccupied(s: State, i: nat)
    requires Owned(s) && i < |s.sessions| && !Holds(s.sessions[i])
    ensures s.sessions[i].id in s.peers <==> Occupied(s, i)
  {
    if s.sessions[i].id in s.peers {
      var j := s.peers[s.sessions[i].id].owner;
      assert Holds(s.sessions[j]) && s.sessions[j].id == s.sessions[i].id;
    }
  }

  /** A step from x to x' refuses the peer for just these reasons, given whether the set is
      full, whether it was closed, and whether another session holds the id. */
  predicate RefusedFor(cfg: Config, x: Session, x': Session, full: bool, closed: bool, taken: bool, choice: bool) {
    && (x'.exit == BarrierFailed != x.exit <==> x.pc == Arrived && cfg.snapEnabled && !choice)
    && (x'.exit == HandshakeFailed != x.exit <==> x.pc == Counted && !choice)
    && (x'.exit == TooManyPeers != x.exit <==> x.pc == Shaken && !x.trusted && full)
    && (x'.exit == SetClosed != x.exit <==> x.pc == Admitted && closed)
    && (x'.exit == AlreadyRegistered != x.exit <==> x.pc == Admitted && !closed && taken)
    && (x'.pc == Registered != x.pc <==> x.pc == Admitted && !closed && !taken)
  }

  lemma EnteringRefused(cfg: Config, s: State, i: nat, choice: bool)
    requires i < |s.sessions| && Entering(s.sessions[i].pc) && Placed(cfg, s.sessions[i])
    ensures var x := s.sessions[i];
            RefusedFor(cfg, x, Moved(x, DecideEntering(cfg, s, i, choice)), |s.peers| >= cfg.maxPeers, s.closed,
                       x.id in s.peers, choice)
  {
  }

  lemma InsideRefused(cfg: Config, s: State, i: nat, choice: bool)
    requires i < |s.sessions| && Inside(s.sessions[i].pc)
    ensures var x := s.sessions[i];
            RefusedFor(cfg, x, Moved(x, DecideInside(cfg, s, i, choice)), |s.peers| >= cfg.maxPeers, s.closed,
                       x.id in s.peers, choice)
  {
  }

  lemma OtherRefused(cfg: Config, s: State, x: Session, choice: bool)
    requires !Entering(x.pc) && !Inside(x.pc)
    ensures RefusedFor(cfg, x, Moved(x, DecideOther(x, choice)), |s.peers| >= cfg.maxPeers, s.closed,
                       x.id in s.peers, choice)
  {
  }

  lemma MoveRefused(cfg: Config, s: State, i: nat, choice: bool)
    requires i < |s.sessions| && Placed(cfg, s.sessions[i])
    ensures var x := s.sessions[i];
            RefusedFor(cfg, x, Moved(x, Decide(cfg, s, i, choice)), |s.peers| >= cfg.maxPeers, s.closed,
                       x.id in s.peers, choice)
  {
    if Entering(s.sessions[i].pc) {
      EnteringRefused(cfg, s, i, choice);
    } else if Inside(s.sessions[i].pc) {
      InsideRefused(cfg, s, i, choice);
    } else {
      OtherRefused(cfg, s, s.sessions[i], choice);
    }
  }

  lemma OnlyWhenAdmitted(cfg: Config, x: Session, x': Session, full: bool, closed: bool, t: bool, t': bool,
                         choice: bool)
    requires RefusedFor(cfg, x, x', full, closed, t, choice) && (x.pc == Admitted ==> t == t')
    ensures RefusedFor(cfg, x, x', full, closed, t', choice)
  {
  }

  /** Exactly when a step of a session refuses its peer, and with which reason: too many peers
      only untrusted ones, when as many sessions as allowed are inside; a closed set only
      after Stop closed it; and an id only while another session holds it. */
  lemma RefusedIff(cfg: Config, actions: seq<Action>, i: nat, choice: bool)
    requires i < |Run(cfg, actions).sessions|
    ensures var s := Run(cfg, actions);
            RefusedFor(cfg, s.sessions[i], Step(cfg, s, Go(i, choice)).sessions[i],
                       Count(s.sessions, Holds) >= cfg.maxPeers, Close in actions, Occupied(s, i), choice)
  {
    ClosedIff(cfg, actions);
    SessionFacts(cfg, actions, i);
    RefusedInState(cfg, Run(cfg, actions), i, choice);
  }

  lemma SessionFacts(cfg: Config, actions: seq<Action>, i: nat)
    requires i < |Run(cfg, actions).sessions|
    ensures var s := Run(cfg, actions);
            Placed(cfg, s.sessions[i]) && Owned(s) && |s.peers| == Count(s.sessions, Holds)
  {
    RunKeepsInv(cfg, actions);
    HistoryIsExact(cfg, actions);
    assert ExactAt(cfg, i, Run(cfg, actions).sessions[i], HistoryOf(Run(cfg, actions).log, i));
  }

  lemma RefusedInState(cfg: Config, s: State, i: nat, choice: bool)
    requires i < |s.sessions| && Placed(cfg, s.sessions[i]) && Owned(s) && |s.peers| == Count(s.sessions, Holds)
    ensures RefusedFor(cfg, s.sessions[i], Step(cfg, s, Go(i, choice)).sessions[i],
                       Count(s.sessions, Holds) >= cfg.maxPeers, s.closed, Occupied(s, i), choice)
  {
    var x := s.sessions[i];
    MoveRefused(cfg, s, i, choice);
    if x.pc == Admitted {
      InSetMeansOccupied(s, i);
    }
    OnlyWhenAdmitted(cfg, x, Moved(x, Decide(cfg, s, i, choice)), |s.peers| >= cfg.maxPeers, s.closed,
                     x.id in s.peers, Occupied(s, i), choice);
  }

  // ----- Who gets on -----

  /** A step from x to x' takes the session on, under just these conditions. */
  predicate GetsOn(cfg: Config, x: Session, x': Session, full: bool, choice: bool) {
    var asks := x.snap && cfg.hasSyncer;
    && (x'.pc == Waited != x.pc <==> x.pc == Arrived && (cfg.snapEnabled ==> choice))
    && (x'.pc == Counted != x.pc <==> x.pc == Waited)
    && (x'.pc == Shaken != x.pc <==> x.pc == Counted && choice)
    && (x'.pc == Admitted != x.pc <==> x.pc == Shaken && (x.trusted || !full))
    && (x'.pc == Found != x.pc <==> x.pc == Registered)
    && (x'.pc == Running != x.pc <==> x.pc == Found && (asks ==> choice))
    && (x'.exit == SyncerRefused != x.exit <==> x.pc == Found && asks && !choice)
    && (x'.exit == Finished != x.exit <==> x.pc == Running)
    && (x'.pc == SnapCounted != x.pc <==> x.pc == SnapArrived)
    && (x'.pc == SnapRunning != x.pc <==> x.pc == SnapCounted && choice)
    && (x'.pc == Leaving != x.pc <==> x.pc == Running || (x.pc == Found && asks && !choice))
    && (x'.pc == SnapLeaving != x.pc <==> x.pc == Leaving && asks)
    && (x'.pc == Removing != x.pc <==> x.pc == SnapLeaving || (x.pc == Leaving && !asks))
    && (x'.pc == Done != x.pc <==> x.pc == Exiting || (x.pc == Arrived && cfg.snapEnabled && !choice))
    && (x.pc != Admitted ==>
          (x'.pc == Exiting != x.pc
           <==> x.pc == Removing || x.pc == SnapRunning || ((x.pc == Counted || x.pc == SnapCounted) && !choice)
                || (x.pc == Shaken && !x.trusted && full)))
  }

  lemma EnteringGetsOn(cfg: Config, s: State, i: nat, choice: bool)
    requires i < |s.sessions| && Entering(s.sessions[i].pc) && Placed(cfg, s.sessions[i])
    ensures var x := s.sessions[i];
            GetsOn(cfg, x, Moved(x, DecideEntering(cfg, s, i, choice)), |s.peers| >= cfg.maxPeers, choice)
  {
  }

  lemma InsideGetsOn(cfg: Config, s: State, i: nat, choice: bool)
    requires i < |s.sessions| && Inside(s.sessions[i].pc) && Placed(cfg, s.sessions[i])
    requires var me := s.sessions[i]; me.id in s.peers && s.peers[me.id] == Entry(i, me.snap)
    ensures var x := s.sessions[i];
            GetsOn(cfg, x, Moved(x, DecideInside(cfg, s, i, choice)), |s.peers| >= cfg.maxPeers, choice)
  {
  }

  lemma OtherGetsOn(cfg: Config, x: Session, full: bool, choice: bool)
    requires !Entering(x.pc) && !Inside(x.pc) && Placed(cfg, x)
    ensures GetsOn(cfg, x, Moved(x, DecideOther(x, choice)), full, choice)
  {
  }

  /** Exactly when a session gets from one place to the next: nobody is let in without the
      steps before, and whoever may go on does. */
  lemma GetsOnIff(cfg: Config, actions: seq<Action>, i: nat, choice: bool)
    requires i < |Run(cfg, actions).sessions|
    ensures var s := Run(cfg, actions);
            GetsOn(cfg, s.sessions[i], Step(cfg, s, Go(i, choice)).sessions[i],
                   Count(s.sessions, Holds) >= cfg.maxPeers, choice)
  {
    SessionFacts(cfg, actions, i);
    GetsOnInState(cfg, Run(cfg, actions), i, choice);
  }

  lemma GetsOnInState(cfg: Config, s: State, i: nat, choice: bool)
    requires i < |s.sessions| && Placed(cfg, s.sessions[i]) && Owned(s) && |s.peers| == Count(s.sessions, Holds)
    ensures GetsOn(cfg, s.sessions[i], Step(cfg, s, Go(i, choice)).sessions[i],
                   Count(s.sessions, Holds) >= cfg.maxPeers, choice)
  {
    if Entering(s.sessions[i].pc) {
      EnteringGetsOn(cfg, s, i, choice);
    } else if Inside(s.sessions[i].pc) {
      InsideGetsOn(cfg, s, i, choice);
    } else {
      OtherGetsOn(cfg, s.sessions[i], |s.peers| >= cfg.maxPeers, choice);
    }
  }

  // ----- What Stop waits for -----

  /** A session that has not begun its handshake, or is over. */
  predicate OutsideHandling(x: Session) {
    x.pc == Arrived || x.pc == Waited || x.pc == SnapArrived || x.pc == Done
  }

  lemma {:induction false} NoneCounted(ss: seq<Session>)
    ensures Count(ss, IsCounted) == 0 <==> forall i :: 0 <= i < |ss| ==> OutsideHandling(ss[i])
  {
    if ss != [] {
      var n := |ss| - 1;
      NoneCounted(ss[..n]);
      assert Count(ss, IsCounted) == Count(ss[..n], IsCounted) + if IsCounted(ss[n]) then 1 else 0;
      assert forall i :: 0 <= i < n ==> ss[..n][i] == ss[i];
    }
  }

  /** Stop returns if and only if the set was closed, Stop has not returned before, and no
      session of either protocol is between its handshake and its end. */
  lemma StopReturnsIff(cfg: Config, actions: seq<Action>)
    ensures var s := Run(cfg, actions);
            s.stop != Stopped && Step(cfg, s, WaitReturns).stop == Stopped
            <==> s.stop == Draining && forall i :: 0 <= i < |s.sessions| ==> OutsideHandling(s.sessions[i])
  {
    RunKeepsInv(cfg, actions);
    NoneCounted(Run(cfg, actions).sessions);
  }

  /** When Stop returns, no handshake is under way and no session of either protocol is
      handling messages or being taken down. */
  lemma StopWaitsForAll(cfg: Config, actions: seq<Action>)
    requires actions != []
    requires Run(cfg, actions).stop == Stopped != Run(cfg, actions[..|actions| - 1]).stop
    ensures forall i :: 0 <= i < |Run(cfg, actions).sessions| ==> OutsideHandling(Run(cfg, actions).sessions[i])
  {
    var before, a := actions[..|actions| - 1], actions[|actions| - 1];
    StopReturnsIff(cfg, before);
    assert a == WaitReturns;
  }
}
