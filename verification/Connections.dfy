/** The peer set of Sessions and the connections of Relay, tied together: a registration opens
    a connection, a removal closes the one its owner opened. */
module Connections {
  import opened Types
  import opened Sequences
  import PoolModel
  import Relay
  import Sessions

  /** The sessions that registered a peer, in order. Connection k belongs to the k-th. */
  function Owners(log: seq<Sessions.Event>): seq<nat> {
    if log == [] then []
    else
      var before := Owners(log[..|log| - 1]);
      match log[|log| - 1] case Registers(i) => before + [i] case _ => before
  }

  function IndexOf(owners: seq<nat>, i: nat): (k: nat)
    ensures i in owners ==> k < |owners| && owners[k] == i
  {
    if owners == [] then 0
    else if owners[|owners| - 1] == i then |owners| - 1
    else IndexOf(owners[..|owners| - 1], i)
  }

  /** What a session's event does to the connections, when `before` is the history so far. */
  function MoveOf(before: seq<Sessions.Event>, e: Sessions.Event): seq<Relay.Action> {
    match e
    case Registers(_) => [Relay.Connect]
    case Removes(_, owner) => [Relay.Disconnect(IndexOf(Owners(before), owner))]
    case _ => []
  }

  function Moves(log: seq<Sessions.Event>): seq<Relay.Action> {
    if log == [] then []
    else Moves(log[..|log| - 1]) + MoveOf(log[..|log| - 1], log[|log| - 1])
  }

  /** The steps of a pipeline run that open or close connections. */
  function MovesIn(actions: seq<Relay.Action>): seq<Relay.Action> {
    if actions == [] then []
    else
      var a := actions[|actions| - 1];
      MovesIn(actions[..|actions| - 1]) + if a.Connect? || a.Disconnect? then [a] else []
  }

  // ----- Which connections are live -----

  /** Which connections are live after some openings and closings. */
  function Live(moves: seq<Relay.Action>): seq<bool> {
    if moves == [] then [] else LiveAfter(Live(moves[..|moves| - 1]), moves[|moves| - 1])
  }

  function LiveAfter(live: seq<bool>, a: Relay.Action): seq<bool> {
    match a
    case Connect => live + [true]
    case Disconnect(k) => if k < |live| then live[k := false] else live
    case _ => live
  }

  function LiveNow(conns: seq<Relay.Conn>): seq<bool> {
    seq(|conns|, k requires 0 <= k < |conns| => conns[k].live)
  }

  lemma LiveOneMore(moves: seq<Relay.Action>, a: Relay.Action)
    ensures Live(moves + [a]) == LiveAfter(Live(moves), a)
  {
    assert (moves + [a])[..|moves|] == moves;
  }

  lemma StepMovesLive(s: Relay.State, cap: PoolModel.Capacity, a: Relay.Action)
    requires s.pool.caches.Shaped()
    ensures LiveNow(Relay.Step(s, cap, a).conns) == LiveAfter(LiveNow(s.conns), a)
  {
  }

  /** Nothing but opening and closing decides which connections are live. */
  lemma {:induction false} LiveFollowsMoves(cap: PoolModel.Capacity, actions: seq<Relay.Action>)
    ensures LiveNow(Relay.Run(cap, actions).conns) == Live(MovesIn(actions))
  {
    if actions != [] {
      var before, a := actions[..|actions| - 1], actions[|actions| - 1];
      LiveFollowsMoves(cap, before);
      StepMovesLive(Relay.Run(cap, before), cap, a);
      if a.Connect? || a.Disconnect? {
        LiveOneMore(MovesIn(before), a);
      } else {
        assert MovesIn(actions) == MovesIn(before);
      }
    }
  }

  // ----- Live connections are the sessions inside -----

  /** Connection k belongs to a session that has entered, and is live while it is inside. */
  ghost predicate OwnerOf(ss: seq<Sessions.Session>, i: nat, live: bool) {
    i < |ss| && !Sessions.Entering(ss[i].pc) && live == Sessions.Holds(ss[i])
  }

  ghost predicate EachOwned(ss: seq<Sessions.Session>, live: seq<bool>, owners: seq<nat>) {
    |live| == |owners| && forall k :: 0 <= k < |owners| ==> OwnerOf(ss, owners[k], live[k])
  }

  ghost predicate InsideOwn(ss: seq<Sessions.Session>, owners: seq<nat>) {
    forall i :: 0 <= i < |ss| && Sessions.Holds(ss[i]) ==> i in owners
  }

  /** Each session owns at most one connection, which is live exactly while the session is
      inside; and every session inside owns one. */
  ghost predicate Tied(ss: seq<Sessions.Session>, live: seq<bool>, owners: seq<nat>) {
    EachOwned(ss, live, owners) && InsideOwn(ss, owners) && Distinct(owners)
  }

  ghost predicate TiedTo(ss: seq<Sessions.Session>, log: seq<Sessions.Event>) {
    Tied(ss, Live(Moves(log)), Owners(log))
  }

  /** What a step logs, by its effect on the peer set. */
  ghost predicate NoteFits(i: nat, me: Sessions.Session, m: Sessions.Move) {
    && (!Sessions.Entering(me.pc) ==> !Sessions.Entering(m.pc))
    && match m.effect
       case Joins => m.note == [Sessions.Registers(i)] && Sessions.Entering(me.pc) && Sessions.Inside(m.pc)
       case Leaves => m.note == [Sessions.Removes(i, i)] && Sessions.Inside(me.pc) && !Sessions.Inside(m.pc)
       case Stays =>
         && Sessions.Inside(me.pc) == Sessions.Inside(m.pc)
         && |m.note| <= 1 && forall e :: e in m.note ==> !e.Registers? && !e.Removes?
  }

  lemma NoteOfMove(cfg: Sessions.Config, s: Sessions.State, i: nat, choice: bool)
    requires Sessions.Owned(s) && i < |s.sessions|
    ensures NoteFits(i, s.sessions[i], Sessions.Decide(cfg, s, i, choice))
  {
    if Sessions.Entering(s.sessions[i].pc) {
      EnteringNote(cfg, s, i, choice);
    } else if Sessions.Inside(s.sessions[i].pc) {
      InsideNote(cfg, s, i, choice);
    } else {
      OtherNote(i, s.sessions[i], choice);
    }
  }

  lemma EnteringNote(cfg: Sessions.Config, s: Sessions.State, i: nat, choice: bool)
    requires i < |s.sessions| && Sessions.Entering(s.sessions[i].pc)
    ensures NoteFits(i, s.sessions[i], Sessions.DecideEntering(cfg, s, i, choice))
  {
  }

  lemma InsideNote(cfg: Sessions.Config, s: Sessions.State, i: nat, choice: bool)
    requires i < |s.sessions| && Sessions.Inside(s.sessions[i].pc)
    requires var me := s.sessions[i]; me.id in s.peers && s.peers[me.id].owner == i
    ensures NoteFits(i, s.sessions[i], Sessions.DecideInside(cfg, s, i, choice))
  {
  }

  lemma OtherNote(i: nat, me: Sessions.Session, choice: bool)
    requires !Sessions.Entering(me.pc) && !Sessions.Inside(me.pc)
    ensures NoteFits(i, me, Sessions.DecideOther(me, choice))
  {
  }

  lemma LogOneMore(log: seq<Sessions.Event>, e: Sessions.Event)
    ensures Moves(log + [e]) == Moves(log) + MoveOf(log, e)
    ensures Owners(log + [e]) == if e.Registers? then Owners(log) + [e.who] else Owners(log)
  {
    assert (log + [e])[..|log|] == log;
  }

  lemma NewOwner(ss: seq<Sessions.Session>, live: seq<bool>, owners: seq<nat>, i: nat, x: Sessions.Session)
    requires Tied(ss, live, owners) && i < |ss| && Sessions.Entering(ss[i].pc) && Sessions.Holds(x)
    ensures Tied(ss[i := x], live + [true], owners + [i])
  {
    var ss', live', owners' := ss[i := x], live + [true], owners + [i];
    forall k | 0 <= k < |owners'| ensures OwnerOf(ss', owners'[k], live'[k]) && (k < |owners| ==> owners[k] != i) {
      if k < |owners| {
        assert OwnerOf(ss, owners[k], live[k]);
      }
    }
    assert Distinct(owners');
    forall j | 0 <= j < |ss'| && Sessions.Holds(ss'[j]) ensures j in owners' {
      assert j != i ==> j in owners;
    }
  }

  lemma OwnerLeaves(ss: seq<Sessions.Session>, live: seq<bool>, owners: seq<nat>, i: nat, x: Sessions.Session)
    requires Tied(ss, live, owners) && i < |ss| && Sessions.Holds(ss[i])
    requires !Sessions.Holds(x) && !Sessions.Entering(x.pc)
    ensures IndexOf(owners, i) < |live| && Tied(ss[i := x], live[IndexOf(owners, i) := false], owners)
  {
    var at := IndexOf(owners, i);
    var ss', live' := ss[i := x], live[at := false];
    forall k | 0 <= k < |owners| ensures OwnerOf(ss', owners[k], live'[k]) {
      assert OwnerOf(ss, owners[k], live[k]);
    }
    forall j | 0 <= j < |ss'| && Sessions.Holds(ss'[j]) ensures j in owners {
      assert j != i;
    }
  }

  lemma NothingChanges(ss: seq<Sessions.Session>, live: seq<bool>, owners: seq<nat>, i: nat, x: Sessions.Session)
    requires Tied(ss, live, owners) && i < |ss| && Sessions.Holds(ss[i]) == Sessions.Holds(x)
    requires !Sessions.Entering(ss[i].pc) ==> !Sessions.Entering(x.pc)
    ensures Tied(ss[i := x], live, owners)
  {
    var ss' := ss[i := x];
    forall k | 0 <= k < |owners| ensures OwnerOf(ss', owners[k], live[k]) {
      assert OwnerOf(ss, owners[k], live[k]);
    }
    forall j | 0 <= j < |ss'| && Sessions.Holds(ss'[j]) ensures j in owners {
      assert Sessions.Holds(ss[j]);
    }
  }

  lemma QuietNote(log: seq<Sessions.Event>, note: seq<Sessions.Event>)
    requires |note| <= 1 && forall e :: e in note ==> !e.Registers? && !e.Removes?
    ensures Moves(log + note) == Moves(log) && Owners(log + note) == Owners(log)
  {
    if note == [] {
      assert log + note == log;
    } else {
      assert note == [note[0]] && note[0] in note;
      LogOneMore(log, note[0]);
      assert Moves(log) + [] == Moves(log);
    }
  }

  lemma JoinTies(ss: seq<Sessions.Session>, log: seq<Sessions.Event>, i: nat, x: Sessions.Session)
    requires TiedTo(ss, log) && i < |ss| && Sessions.Entering(ss[i].pc) && Sessions.Holds(x)
    ensures TiedTo(ss[i := x], log + [Sessions.Registers(i)])
  {
    LogOneMore(log, Sessions.Registers(i));
    LiveOneMore(Moves(log), Relay.Connect);
    NewOwner(ss, Live(Moves(log)), Owners(log), i, x);
  }

  lemma LeaveTies(ss: seq<Sessions.Session>, log: seq<Sessions.Event>, i: nat, x: Sessions.Session)
    requires TiedTo(ss, log) && i < |ss| && Sessions.Holds(ss[i])
    requires !Sessions.Holds(x) && !Sessions.Entering(x.pc)
    ensures TiedTo(ss[i := x], log + [Sessions.Removes(i, i)])
  {
    LogOneMore(log, Sessions.Removes(i, i));
    LiveOneMore(Moves(log), Relay.Disconnect(IndexOf(Owners(log), i)));
    OwnerLeaves(ss, Live(Moves(log)), Owners(log), i, x);
  }

  lemma MoveTies(ss: seq<Sessions.Session>, log: seq<Sessions.Event>, i: nat, m: Sessions.Move)
    requires i < |ss| && TiedTo(ss, log) && NoteFits(i, ss[i], m)
    ensures TiedTo(ss[i := Sessions.Moved(ss[i], m)], log + m.note)
  {
    var x := Sessions.Moved(ss[i], m);
    match m.effect
    case Joins => JoinTies(ss, log, i, x);
    case Leaves => LeaveTies(ss, log, i, x);
    case Stays =>
      QuietNote(log, m.note);
      NothingChanges(ss, Live(Moves(log)), Owners(log), i, x);
  }

  lemma AdvanceTies(cfg: Sessions.Config, s: Sessions.State, i: nat, choice: bool)
    requires Sessions.Owned(s) && i < |s.sessions| && TiedTo(s.sessions, s.log)
    ensures var s' := Sessions.Advance(cfg, s, i, choice); TiedTo(s'.sessions, s'.log)
  {
    NoteOfMove(cfg, s, i, choice);
    MoveTies(s.sessions, s.log, i, Sessions.Decide(cfg, s, i, choice));
  }

  lemma ArrivalTies(ss: seq<Sessions.Session>, live: seq<bool>, owners: seq<nat>, x: Sessions.Session)
    requires Tied(ss, live, owners) && !Sessions.Holds(x)
    ensures Tied(ss + [x], live, owners)
  {
    var ss' := ss + [x];
    forall k | 0 <= k < |owners| ensures OwnerOf(ss', owners[k], live[k]) {
      assert OwnerOf(ss, owners[k], live[k]);
    }
    forall j | 0 <= j < |ss'| && Sessions.Holds(ss'[j]) ensures j in owners {
      assert j < |ss| && ss'[j] == ss[j];
    }
  }

  lemma StepTies(cfg: Sessions.Config, s: Sessions.State, a: Sessions.Action)
    requires Sessions.Owned(s) && TiedTo(s.sessions, s.log)
    ensures var s' := Sessions.Step(cfg, s, a); TiedTo(s'.sessions, s'.log)
  {
    if a.Go? {
      if a.i < |s.sessions| {
        AdvanceTies(cfg, s, a.i, a.choice);
      }
    } else if a.ArriveEth? || a.ArriveSnap? {
      ArrivalTies(s.sessions, Live(Moves(s.log)), Owners(s.log), Sessions.Step(cfg, s, a).sessions[|s.sessions|]);
    }
  }

  lemma {:induction false} RunTies(cfg: Sessions.Config, actions: seq<Sessions.Action>)
    ensures TiedTo(Sessions.Run(cfg, actions).sessions, Sessions.Run(cfg, actions).log)
  {
    if actions != [] {
      var before, a := actions[..|actions| - 1], actions[|actions| - 1];
      RunTies(cfg, before);
      Sessions.RunKeepsInv(cfg, before);
      StepTies(cfg, Sessions.Run(cfg, before), a);
    }
  }

  /** The pipeline opens and closes connections just as the sessions register and remove. */
  ghost predicate Follows(s: Sessions.State, actions: seq<Relay.Action>) {
    MovesIn(actions) == Moves(s.log)
  }

  /** A live connection of that peer. */
  predicate LiveFor(s: Sessions.State, conns: seq<Relay.Conn>, k: nat, id: nat) {
    && k < |conns| && conns[k].live && k < |Owners(s.log)|
    && Owners(s.log)[k] < |s.sessions| && s.sessions[Owners(s.log)[k]].id == id
  }

  /** In every pair of runs that agree on registrations, the live connections are the peer set:
      each connection is live exactly while the session that opened it is inside, and a peer is
      in the set if and only if it has a live connection, of which it never has two. */
  lemma LiveIsRegistered(cfg: Sessions.Config, steps: seq<Sessions.Action>, cap: PoolModel.Capacity,
                         actions: seq<Relay.Action>)
    requires Follows(Sessions.Run(cfg, steps), actions)
    ensures var s, conns := Sessions.Run(cfg, steps), Relay.Run(cap, actions).conns;
            && |Owners(s.log)| == |conns|
            && (forall k :: 0 <= k < |conns| ==>
                  && Owners(s.log)[k] < |s.sessions|
                  && (conns[k].live <==> Sessions.Holds(s.sessions[Owners(s.log)[k]])))
            && (forall id :: id in s.peers <==> exists k: nat :: LiveFor(s, conns, k, id))
            && forall id, j: nat, k: nat :: LiveFor(s, conns, j, id) && LiveFor(s, conns, k, id) ==> j == k
  {
    var s, conns := Sessions.Run(cfg, steps), Relay.Run(cap, actions).conns;
    RunTies(cfg, steps);
    Sessions.RunKeepsInv(cfg, steps);
    LiveFollowsMoves(cap, actions);
    assert forall k :: 0 <= k < |conns| ==> LiveNow(conns)[k] == conns[k].live;
    LiveOnesAreTheSet(s, conns);
  }

  lemma LiveOnesAreTheSet(s: Sessions.State, conns: seq<Relay.Conn>)
    requires Sessions.Owned(s) && Tied(s.sessions, LiveNow(conns), Owners(s.log))
    ensures forall id :: id in s.peers <==> exists k: nat :: LiveFor(s, conns, k, id)
    ensures forall id, j: nat, k: nat :: LiveFor(s, conns, j, id) && LiveFor(s, conns, k, id) ==> j == k
  {
    var owners := Owners(s.log);
    assert forall k :: 0 <= k < |conns| ==> LiveNow(conns)[k] == conns[k].live;
    forall id | id in s.peers ensures exists k: nat :: LiveFor(s, conns, k, id) {
      var k := IndexOf(owners, s.peers[id].owner);
      assert LiveFor(s, conns, k, id);
    }
  }

  /** Once Stop has returned no connection is live, so no lookup finds anyone to tell. */
  lemma StoppedMeansNobodyLeft(cfg: Sessions.Config, steps: seq<Sessions.Action>, n: nat,
                               cap: PoolModel.Capacity, actions: seq<Relay.Action>, h: Hash)
    requires n <= |steps| && Sessions.Run(cfg, steps[..n]).stop == Sessions.Stopped
    requires Follows(Sessions.Run(cfg, steps), actions)
    ensures Relay.Uninformed(Relay.Run(cap, actions).conns, h) == {}
  {
    var s, conns := Sessions.Run(cfg, steps), Relay.Run(cap, actions).conns;
    Sessions.StoppedMeansEmpty(cfg, steps, n);
    LiveIsRegistered(cfg, steps, cap, actions);
    Sessions.RunKeepsInv(cfg, steps);
    NobodyInside(s);
    assert forall k :: 0 <= k < |conns| ==> !conns[k].live;
  }

  lemma NobodyInside(s: Sessions.State)
    requires Sessions.Owned(s) && s.peers == map[]
    ensures forall i :: 0 <= i < |s.sessions| ==> !Sessions.Holds(s.sessions[i])
  {
  }
}
