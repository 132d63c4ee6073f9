/** How often one remembered challenge is answered: by each removal that completes a clear
    which read it, so at most once for every clear of its height in progress at the same time. */
module EachAnswer {
  import opened Types
  import opened Sequences
  import opened Lru
  import opened ChallengePool
  import opened ChallengeRelay
  import opened Waiting
  import opened AnswerCount

  /** How many removals answer the challenge remembered at position i. */
  function TimesAnswered(log: seq<Event>, i: nat): nat {
    if log == [] then 0
    else TimesAnswered(log[..|log| - 1], i) + if AnsweredBy(log, |log| - 1, i) then 1 else 0
  }

  lemma {:induction false} TimesQuiet(log: seq<Event>, more: seq<Event>, i: nat)
    requires forall e :: e in more ==> !e.Removed?
    ensures TimesAnswered(log + more, i) == TimesAnswered(log, i)
    decreases |more|
  {
    if more == [] {
      assert log + more == log;
    } else {
      var m := |more| - 1;
      TimesQuiet(log, more[..m], i);
      assert (log + more)[..|log + more| - 1] == log + more[..m];
      assert more[m] in more;
    }
  }

  lemma TimesRemoved(log: seq<Event>, n: Uint64, p: nat, more: seq<Event>, i: nat)
    requires forall e :: e in more ==> !e.Removed?
    ensures TimesAnswered(log + ([Removed(n, p)] + more), i)
            == TimesAnswered(log, i) + if i in ReadBy(log, p) then 1 else 0
  {
    assert (log + [Removed(n, p)])[..|log|] == log;
    TimesQuiet(log + [Removed(n, p)], more, i);
    assert log + ([Removed(n, p)] + more) == log + [Removed(n, p)] + more;
  }

  /** The peers in a clear that has read the challenge remembered at i. */
  function Readers(s: State, i: nat): set<nat> {
    set q | 0 <= q < |s.peers| && s.peers[q].Clearing? && i in ReadBy(s.log, q)
  }

  /** The peers in a clear of height n. */
  function Clearers(peers: seq<Phase>, n: Uint64): set<nat> {
    set q | 0 <= q < |peers| && InClear(n)(peers[q]) == 1
  }

  lemma {:induction false} ClearersCount(peers: seq<Phase>, n: Uint64)
    ensures |Clearers(peers, n)| == Sum(peers, InClear(n))
    decreases |peers|
  {
    if peers == [] {
      assert Clearers(peers, n) == {};
    } else {
      var m := |peers| - 1;
      ClearersCount(peers[..m], n);
      assert Clearers(peers, n) == Clearers(peers[..m], n) + if InClear(n)(peers[m]) == 1 then {m} else {};
    }
  }

  ghost predicate AllHoldTheirReads(s: State) {
    forall q :: 0 <= q < |s.peers| ==> HoldsItsRead(s, q)
  }

  /** Position i, once logged, remembers for n. */
  predicate IsFor(log: seq<Event>, i: nat, n: Uint64) {
    i < |log| ==> RemembersFor(log[i], n)
  }

  /** Who has read the challenge is in a clear of its height. */
  lemma ReadersClear(s: State, i: nat, n: Uint64)
    requires AllHoldTheirReads(s) && IsFor(s.log, i, n)
    ensures |Readers(s, i)| <= Clears(s, n)
  {
    forall q | q in Readers(s, i) ensures q in Clearers(s.peers, n) {
      assert HoldsItsRead(s, q);
      var m := Low64(s.peers[q].header.number);
      var r: nat :| ClearFrom(s.log, q, m, r) && HasRead(s, q, m, r);
      WaitsMeaning(s.log[..r], i, m);
      assert s.log[..r][i] == s.log[i];
    }
    ClearersCount(s.peers, n);
    SubsetCardinality(Readers(s, i), Clearers(s.peers, n));
  }

  /** Answers given and answers still to come from clears that have read the challenge: no
      more than w; while it waits, none has been given. */
  ghost predicate AnswersWithin(s: State, i: nat, n: Uint64, w: nat) {
    && TimesAnswered(s.log, i) + |Readers(s, i)| <= w
    && (i >= |s.log| || i in WaitsAt(s.log, n) ==> TimesAnswered(s.log, i) == 0)
  }

  lemma ReadNeedsPosition(s: State, i: nat)
    requires i >= |s.log|
    ensures Readers(s, i) == {}
  {
  }

  /** Steps of no peer, or of one that does not read or remove. */
  lemma OthersKeepReaders(s: State, cap: nat, a: Action, i: nat)
    requires Enabled(s, a) && !a.Receive? && !a.RemoveIt?
    ensures Readers(Step(s, cap, a), i) == Readers(s, i)
  {
    NoteIsLogged(s, cap, a);
    forall q | 0 <= q < |s.peers| && !Acts(a, q) ensures ReadBy(Step(s, cap, a).log, q) == ReadBy(s.log, q) {
      OthersAreQuiet(s, cap, a, q);
      ReadQuiet(s.log, Note(s, cap, a), q);
    }
  }

  lemma OthersKeepAnswers(s: State, cap: nat, a: Action, i: nat, n: Uint64, w: nat)
    requires Enabled(s, a) && !a.Receive? && !a.RemoveIt?
    requires AnswersWithin(s, i, n, w) && IsFor(Step(s, cap, a).log, i, n)
    ensures AnswersWithin(Step(s, cap, a), i, n, w)
  {
    NoteIsLogged(s, cap, a);
    OthersKeepReaders(s, cap, a, i);
    TimesQuiet(s.log, Note(s, cap, a), i);
    if i < |s.log| {
      WaitedBefore(s.log, Note(s, cap, a), i, n);
    }
  }

  lemma WaitedBefore(log: seq<Event>, more: seq<Event>, i: nat, n: Uint64)
    requires i < |log|
    ensures i in WaitsAt(log + more, n) ==> i in WaitsAt(log, n)
  {
    WaitsMeaning(log, i, n);
    WaitsMeaning(log + more, i, n);
    assert forall j :: 0 <= j < |log| ==> (log + more)[j] == log[j];
  }

  lemma ReceiveReaders(s: State, q: nat, header: Header, i: nat)
    requires q < |s.peers| && s.peers[q].Idle?
    ensures var found := ReadStep(s, q, header).peers[q].Clearing? && i in WaitsAt(s.log, Low64(header.number));
            Readers(ReadStep(s, q, header), i) == Readers(s, i) + if found then {q} else {}
  {
    var m, s' := Low64(header.number), ReadStep(s, q, header);
    assert s'.log[..|s.log|] == s.log;
    forall p | 0 <= p < |s.peers| && p != q ensures ReadBy(s'.log, p) == ReadBy(s.log, p) {
      ReadQuiet(s.log, [Received(q, header)], p);
    }
  }

  lemma ReceiveKeepsAnswers(s: State, q: nat, header: Header, i: nat, n: Uint64, w: nat)
    requires q < |s.peers| && s.peers[q].Idle? && AnswersWithin(s, i, n, w) && IsFor(s.log, i, n)
    requires AllHoldTheirReads(ReadStep(s, q, header)) && Clears(ReadStep(s, q, header), n) <= w
    requires IsFor(ReadStep(s, q, header).log, i, n)
    ensures AnswersWithin(ReadStep(s, q, header), i, n, w)
  {
    ReceiveTimes(s.log, q, header, i, n);
    if i in WaitsAt(s.log, Low64(header.number)) {
      WaitsForItsHeight(s.log, i, Low64(header.number), n);
      ReadersClear(ReadStep(s, q, header), i, n);
    } else {
      ReceiveReaders(s, q, header, i);
    }
  }

  lemma ReceiveTimes(log: seq<Event>, q: nat, header: Header, i: nat, n: Uint64)
    ensures TimesAnswered(log + [Received(q, header)], i) == TimesAnswered(log, i)
    ensures WaitsAt(log + [Received(q, header)], n) == WaitsAt(log, n)
  {
    TimesQuiet(log, [Received(q, header)], i);
    WaitsQuiet(log, [Received(q, header)], n);
  }

  lemma WaitsForItsHeight(log: seq<Event>, i: nat, m: Uint64, n: Uint64)
    requires i in WaitsAt(log, m) && IsFor(log, i, n)
    ensures m == n && i < |log|
  {
    WaitsMeaning(log, i, m);
  }

  lemma RemoveReaders(s: State, q: nat, i: nat)
    requires q < |s.peers| && s.peers[q].Clearing?
    ensures Readers(RemoveStep(s, q), i) == Readers(s, i) - {q}
  {
    var c, s' := s.peers[q], RemoveStep(s, q);
    forall p | 0 <= p < |s.peers| && p != q ensures ReadBy(s'.log, p) == ReadBy(s.log, p) {
      ReadQuiet(s.log, [Removed(Low64(c.header.number), q)] + Replies(c.found, c.header), p);
    }
  }

  lemma RemoveKeepsAnswers(s: State, q: nat, i: nat, n: Uint64, w: nat)
    requires q < |s.peers| && s.peers[q].Clearing? && AnswersWithin(s, i, n, w)
    requires AllHoldTheirReads(s) && IsFor(RemoveStep(s, q).log, i, n)
    ensures AnswersWithin(RemoveStep(s, q), i, n, w)
  {
    var c, s' := s.peers[q], RemoveStep(s, q);
    var m := Low64(c.header.number);
    RemoveReaders(s, q, i);
    TimesRemoved(s.log, m, q, Replies(c.found, c.header), i);
    if i < |s.log| {
      WaitedBefore(s.log, [Removed(m, q)] + Replies(c.found, c.header), i, n);
      ReaderIsOfHeight(s, q, i, n);
      if m == n {
        WaitsLost(s.log, Removed(n, q), Replies(c.found, c.header), n);
      }
    } else {
      ReadNeedsPosition(s, i);
    }
  }

  lemma ReaderIsOfHeight(s: State, q: nat, i: nat, n: Uint64)
    requires q < |s.peers| && s.peers[q].Clearing? && AllHoldTheirReads(s) && i < |s.log| && RemembersFor(s.log[i], n)
    ensures i in ReadBy(s.log, q) ==> Low64(s.peers[q].header.number) == n
  {
    assert HoldsItsRead(s, q);
    var m := Low64(s.peers[q].header.number);
    var r: nat :| ClearFrom(s.log, q, m, r) && HasRead(s, q, m, r);
    WaitsMeaning(s.log[..r], i, m);
    if i in ReadBy(s.log, q) {
      assert s.log[..r][i] == s.log[i];
    }
  }

  lemma StepKeepsAnswers(s: State, cap: nat, a: Action, i: nat, n: Uint64, w: nat)
    requires AnswersWithin(s, i, n, w) && AllHoldTheirReads(s) && AllHoldTheirReads(Step(s, cap, a))
    requires Clears(Step(s, cap, a), n) <= w && IsFor(s.log, i, n) && IsFor(Step(s, cap, a).log, i, n)
    ensures AnswersWithin(Step(s, cap, a), i, n, w)
  {
    if Enabled(s, a) {
      if a.Receive? {
        ReceiveKeepsAnswers(s, a.p, a.headers[0], i, n, w);
      } else if a.RemoveIt? {
        RemoveKeepsAnswers(s, a.p, i, n, w);
      } else {
        OthersKeepAnswers(s, cap, a, i, n, w);
      }
    }
  }

  lemma ReadsHeld(cap: nat, actions: seq<Action>)
    requires 1 <= cap
    ensures AllHoldTheirReads(Run(cap, actions))
  {
    forall q | 0 <= q < |Run(cap, actions).peers| ensures HoldsItsRead(Run(cap, actions), q) {
      ClearsHoldTheirReads(cap, actions, q);
    }
  }

  lemma {:induction false} RunKeepsAnswers(cap: nat, actions: seq<Action>, i: nat, n: Uint64, w: nat)
    requires 1 <= cap && ClearsWithin(cap, actions, n, w) && IsFor(Run(cap, actions).log, i, n)
    ensures AnswersWithin(Run(cap, actions), i, n, w)
    decreases |actions|
  {
    if actions == [] {
      ReadNeedsPosition(Run(cap, actions), i);
    } else {
      var before := actions[..|actions| - 1];
      assert forall k :: 0 <= k <= |before| ==> before[..k] == actions[..k];
      LogGrows(cap, actions, |before|);
      RunKeepsAnswers(cap, before, i, n, w);
      ReadsHeld(cap, before);
      ReadsHeld(cap, actions);
      assert actions[..|actions|] == actions;
      StepKeepsAnswers(Run(cap, before), cap, actions[|before|], i, n, w);
    }
  }

  /** If at most w clears of its height are ever in progress at once, each remembered challenge
      is answered by at most w removals. With w == 1, when clears of a height never overlap,
      no challenge is answered twice. */
  lemma EachAnsweredAtMost(cap: nat, actions: seq<Action>, i: nat, w: nat)
    requires 1 <= cap && i < |Run(cap, actions).log| && Run(cap, actions).log[i].Remembered?
    requires ClearsWithin(cap, actions, Run(cap, actions).log[i].height, w)
    ensures TimesAnswered(Run(cap, actions).log, i) <= w
  {
    RunKeepsAnswers(cap, actions, i, Run(cap, actions).log[i].height, w);
  }

  // ----- Exactly when a challenge is answered, and answered twice -----

  lemma {:induction false} AnsweredOnce(log: seq<Event>, i: nat) returns (j: nat)
    requires TimesAnswered(log, i) > 0
    ensures AnsweredBy(log, j, i) && TimesAnswered(log[..j], i) + 1 == TimesAnswered(log, i)
    decreases |log|
  {
    j := |log| - 1;
    if !AnsweredBy(log, j, i) {
      var m := j;
      j := AnsweredOnce(log[..m], i);
      assert log[..m][..j] == log[..j];
    }
  }

  lemma {:induction false} AnswerCounts(log: seq<Event>, j: nat, i: nat)
    requires AnsweredBy(log, j, i)
    ensures TimesAnswered(log, i) >= TimesAnswered(log[..j], i) + 1
    decreases |log|
  {
    var m := |log| - 1;
    if j < m {
      assert log[..m][..j] == log[..j];
      AnswerCounts(log[..m], j, i);
    }
  }

  /** A clear of the challenge's height reads it at r, while it waits, and completes at j. */
  ghost predicate ReadAndAnswered(log: seq<Event>, r: nat, j: nat, i: nat) {
    && Completes(log, r, j) && i < r && i < |log| && RemembersFor(log[i], log[j].height)
    && forall l :: i < l < r && l < |log| ==> !Loses(log[l], log[j].height)
  }

  /** A removal answers a challenge if and only if it completes a clear that read it. */
  lemma AnsweredByItsRead(log: seq<Event>, r: nat, j: nat, i: nat)
    requires Completes(log, r, j)
    ensures AnsweredBy(log, j, i) <==> ReadAndAnswered(log, r, j, i)
  {
    var n := log[j].height;
    assert log[..j][..r] == log[..r];
    WaitsMeaning(log[..r], i, n);
    assert forall l :: 0 <= l < r ==> log[..r][l] == log[l];
  }

  /** A challenge stays without any answer if and only if every completed clear of its height
      that read after its remember did so after it was lost. */
  lemma UnansweredIff(cap: nat, actions: seq<Action>, i: nat)
    requires 1 <= cap && i < |Run(cap, actions).log| && Run(cap, actions).log[i].Remembered?
    ensures var log := Run(cap, actions).log;
            TimesAnswered(log, i) == 0 <==> forall r: nat, j: nat :: !ReadAndAnswered(log, r, j, i)
  {
    var log := Run(cap, actions).log;
    RunExplained(cap, actions);
    if TimesAnswered(log, i) > 0 {
      var j := AnsweredOnce(log, i);
      var r: nat :| Completes(log, r, j);
      AnsweredByItsRead(log, r, j, i);
      assert ReadAndAnswered(log, r, j, i);
    }
    forall r: nat, j: nat | ReadAndAnswered(log, r, j, i) ensures TimesAnswered(log, i) > 0 {
      AnsweredByItsRead(log, r, j, i);
      AnswerCounts(log, j, i);
    }
  }

  /** Two clears that read the challenge while it waits and complete; the second reads before
      either removes, so they overlap. */
  ghost predicate TwoClears(log: seq<Event>, i: nat, r1: nat, j1: nat, r2: nat, j2: nat) {
    r1 < r2 && ReadAndAnswered(log, r1, j1, i) && ReadAndAnswered(log, r2, j2, i)
  }

  lemma TwoClearsOverlap(log: seq<Event>, i: nat, r1: nat, j1: nat, r2: nat, j2: nat)
    requires TwoClears(log, i, r1, j1, r2, j2)
    ensures j1 != j2 && r2 < j1 && r2 < j2
  {
    CompletedMeans(log, r1, j1);
    CompletedMeans(log, r2, j2);
  }

  lemma CompletedMeans(log: seq<Event>, r: nat, j: nat)
    requires Completes(log, r, j)
    ensures r < j && Receives(log[r], log[j].who, log[j].height)
    ensures forall k :: r < k < j ==> !ByPeer(log[k], log[j].who)
  {
    assert forall k :: 0 <= k < j ==> log[..j][k] == log[k];
  }

  /** One peer's two removals complete two different clears. */
  lemma DifferentReads(log: seq<Event>, r: nat, j1: nat, j2: nat)
    requires j1 < j2 && Completes(log, r, j1) && j2 < |log| && log[j2].Removed?
    ensures !Completes(log, r, j2)
  {
    CompletedMeans(log, r, j1);
    if Completes(log, r, j2) {
      CompletedMeans(log, r, j2);
    }
  }

  /** A challenge is answered more than once if and only if two clears that both read it
      complete; they then overlap. */
  lemma AnsweredTwiceIff(cap: nat, actions: seq<Action>, i: nat)
    requires 1 <= cap && i < |Run(cap, actions).log| && Run(cap, actions).log[i].Remembered?
    ensures var log := Run(cap, actions).log;
            TimesAnswered(log, i) >= 2
            <==> exists r1: nat, j1: nat, r2: nat, j2: nat :: TwoClears(log, i, r1, j1, r2, j2)
  {
    var log := Run(cap, actions).log;
    RunExplained(cap, actions);
    if TimesAnswered(log, i) >= 2 {
      var r1, j1, r2, j2 := TwoAnswers(log, i);
    }
    forall r1: nat, j1: nat, r2: nat, j2: nat | TwoClears(log, i, r1, j1, r2, j2) ensures TimesAnswered(log, i) >= 2 {
      TwoClearsOverlap(log, i, r1, j1, r2, j2);
      AnsweredByItsRead(log, r1, j1, i);
      AnsweredByItsRead(log, r2, j2, i);
      CountTwo(log, i, if j1 < j2 then j1 else j2, if j1 < j2 then j2 else j1);
    }
  }

  lemma CountTwo(log: seq<Event>, i: nat, j1: nat, j2: nat)
    requires j1 < j2 && AnsweredBy(log, j1, i) && AnsweredBy(log, j2, i)
    ensures TimesAnswered(log, i) >= 2
  {
    assert log[..j2][..j1] == log[..j1];
    AnswerCounts(log[..j2], j1, i);
    AnswerCounts(log, j2, i);
  }

  lemma TwoAnswers(log: seq<Event>, i: nat) returns (r1: nat, j1: nat, r2: nat, j2: nat)
    requires RemovalsExplained(log) && TimesAnswered(log, i) >= 2
    ensures TwoClears(log, i, r1, j1, r2, j2)
  {
    var b := AnsweredOnce(log, i);
    var a := AnsweredOnce(log[..b], i);
    assert log[..b][..a] == log[..a];
    var ra: nat :| Completes(log, ra, a);
    var rb: nat :| Completes(log, rb, b);
    AnsweredByItsRead(log, ra, a, i);
    AnsweredByItsRead(log, rb, b, i);
    DifferentReads(log, ra, a, b);
    if ra < rb {
      r1, j1, r2, j2 := ra, a, rb, b;
    } else {
      r1, j1, r2, j2 := rb, b, ra, a;
    }
  }

  // ----- The bound is reached -----

  /** Peer 0 was remembered once for height 7 and still waits; `reading` other peers are in
      the middle of a clear that has read its challenge, `done` more have answered it. */
  ghost predicate Crowd(s: State, peers: nat, reading: nat, done: nat) {
    && |s.peers| == peers && 1 + done + reading <= peers
    && (forall q :: 1 + done <= q < 1 + done + reading ==> s.peers[q] == Clearing(Header(7, []), [Challenge(0, 7)]))
    && (forall q :: 0 <= q < peers && !(1 + done <= q < 1 + done + reading) ==> s.peers[q] == Idle)
    && (done == 0 ==> Lookup(s.store, PendingKey(7)) == Some(Pending([Challenge(0, 7)])))
    && Answers(s, 0, 7) == done && Remembers(s, 0, 7) == 1 && Clears(s, 7) == reading
    && CrowdLog(s.log, reading, done)
  }

  /** The same in the history: the challenge is the one remembered at position 1. */
  ghost predicate CrowdLog(log: seq<Event>, reading: nat, done: nat) {
    && |log| >= 2 && log[1] == Remembered(0, 7) && TimesAnswered(log, 1) == done
    && (done == 0 ==> WaitsAt(log, 7) == [1])
    && forall q: nat :: 1 + done <= q < 1 + done + reading ==> ReadBy(log, q) == [1]
  }

  lemma LogStarts()
    ensures CrowdLog([Asked(0, 7), Remembered(0, 7)], 0, 0)
  {
    var log := [Asked(0, 7), Remembered(0, 7)];
    assert [] + log == log;
    TimesQuiet([], log, 1);
    assert log[..1] == [Asked(0, 7)] && log[..1][..0] == [];
    WaitsQuiet([], log[..1], 7);
    assert [] + log[..1] == log[..1] && WaitsAt(log[..1], 7) == [];
  }

  lemma LogReads(log: seq<Event>, k: nat)
    requires CrowdLog(log, k, 0)
    ensures CrowdLog(log + [Received(k + 1, Header(7, []))], k + 1, 0)
  {
    var more := [Received(k + 1, Header(7, []))];
    TimesQuiet(log, more, 1);
    WaitsQuiet(log, more, 7);
    assert (log + more)[..|log|] == log;
    forall q: nat | 1 <= q < 1 + k ensures ReadBy(log + more, q) == [1] {
      ReadQuiet(log, more, q);
    }
  }

  lemma LogRemoves(log: seq<Event>, reading: nat, done: nat, replies: seq<Event>)
    requires CrowdLog(log, reading + 1, done) && forall e :: e in replies ==> e.Replied?
    ensures CrowdLog(log + ([Removed(7, done + 1)] + replies), reading, done + 1)
  {
    var more := [Removed(7, done + 1)] + replies;
    TimesRemoved(log, 7, done + 1, replies, 1);
    forall q: nat | 2 + done <= q < 2 + done + reading ensures ReadBy(log + more, q) == [1] {
      ReadQuiet(log, more, q);
    }
  }

  lemma Extend(cap: nat, actions: seq<Action>, a: Action, w: nat) returns (longer: seq<Action>)
    requires ClearsWithin(cap, actions, 7, w) && Clears(Step(Run(cap, actions), cap, a), 7) <= w
    ensures Run(cap, longer) == Step(Run(cap, actions), cap, a) && ClearsWithin(cap, longer, 7, w)
  {
    longer := actions + [a];
    assert longer[..|actions|] == actions;
    forall k | 0 <= k <= |longer| ensures Clears(Run(cap, longer[..k]), 7) <= w {
      assert k <= |actions| ==> longer[..k] == actions[..k];
      assert k > |actions| ==> longer[..k] == longer;
    }
  }

  ghost predicate AllIdle(s: State, peers: nat) {
    s == State([], seq(peers, _ => Idle), [])
  }

  lemma {:induction false} NobodyClears(peers: nat)
    ensures Sum(seq(peers, _ => Idle), InClear(7)) == 0
  {
    if peers > 0 {
      NobodyClears(peers - 1);
      assert seq(peers, _ => Idle)[..peers - 1] == seq(peers - 1, _ => Idle);
    }
  }

  lemma {:induction false} AllJoin(cap: nat, peers: nat, w: nat) returns (a: seq<Action>)
    ensures ClearsWithin(cap, a, 7, w) && AllIdle(Run(cap, a), peers)
  {
    a := [];
    if peers > 0 {
      a := AllJoin(cap, peers - 1, w);
      NobodyClears(peers);
      assert seq(peers, _ => Idle) == seq(peers - 1, _ => Idle) + [Idle];
      a := Extend(cap, a, Join, w);
    }
  }

  lemma OneRemembered(cap: nat, peers: nat, w: nat) returns (a: seq<Action>)
    requires 1 <= cap && 1 <= peers
    ensures ClearsWithin(cap, a, 7, w) && Crowd(Run(cap, a), peers, 0, 0)
  {
    a := AllJoin(cap, peers, w);
    FirstAsks(peers);
    a := Extend(cap, a, Ask(0, 7), w);
    OneRemembers(Run(cap, a), cap, peers);
    a := Extend(cap, a, RememberIt(0), w);
  }

  lemma FirstAsks(peers: nat)
    requires 1 <= peers
    ensures Sum(seq(peers, _ => Idle)[0 := Reflected(7)], InClear(7)) == 0
  {
    NobodyClears(peers);
    SumUpdate(seq(peers, _ => Idle), 0, Reflected(7), InClear(7));
  }

  lemma OneRemembers(s: State, cap: nat, peers: nat)
    requires 1 <= cap && 1 <= peers
    requires s == State([], seq(peers, _ => Idle)[0 := Reflected(7)], [Asked(0, 7)])
    ensures Crowd(RememberStep(s, cap, 0), peers, 0, 0)
  {
    var s' := RememberStep(s, cap, 0);
    assert PendingAt(s.store, 7) + [Challenge(0, 7)] == [Challenge(0, 7)];
    assert s'.peers == seq(peers, _ => Idle);
    NobodyClears(peers);
    assert s'.log == [Asked(0, 7), Remembered(0, 7)];
    NoAnswers(s'.log, 0, 7);
    LogStarts();
  }

  lemma {:induction false} OthersRead(cap: nat, peers: nat, k: nat, w: nat) returns (a: seq<Action>)
    requires 1 <= cap && k <= w && 1 + k <= peers
    ensures ClearsWithin(cap, a, 7, w) && Crowd(Run(cap, a), peers, k, 0)
    decreases k
  {
    if k == 0 {
      a := OneRemembered(cap, peers, w);
    } else {
      a := OthersRead(cap, peers, k - 1, w);
      a := ReadOne(cap, a, peers, k - 1, w);
    }
  }

  lemma ReadOne(cap: nat, a: seq<Action>, peers: nat, k: nat, w: nat) returns (b: seq<Action>)
    requires k + 1 <= w && k + 2 <= peers && ClearsWithin(cap, a, 7, w) && Crowd(Run(cap, a), peers, k, 0)
    ensures ClearsWithin(cap, b, 7, w) && Crowd(Run(cap, b), peers, k + 1, 0)
  {
    CrowdReads(Run(cap, a), cap, peers, k);
    b := Extend(cap, a, Receive(k + 1, [Header(7, [])]), w);
  }

  lemma CrowdReads(s: State, cap: nat, peers: nat, k: nat)
    requires Crowd(s, peers, k, 0) && k + 2 <= peers
    ensures Crowd(Step(s, cap, Receive(k + 1, [Header(7, [])])), peers, k + 1, 0)
  {
    var s' := ReadStep(s, k + 1, Header(7, []));
    StepReceives(s, cap, k + 1, Header(7, []));
    assert s'.peers == s.peers[k + 1 := Clearing(Header(7, []), [Challenge(0, 7)])];
    CrowdGrows(s, s', peers, k);
  }

  lemma StepReceives(s: State, cap: nat, q: nat, header: Header)
    requires q < |s.peers| && s.peers[q].Idle?
    ensures Step(s, cap, Receive(q, [header])) == ReadStep(s, q, header)
  {
  }

  lemma StepRemoves(s: State, cap: nat, q: nat)
    requires q < |s.peers| && s.peers[q].Clearing?
    ensures Step(s, cap, RemoveIt(q)) == RemoveStep(s, q)
  {
  }

  lemma CrowdGrows(s: State, s': State, peers: nat, k: nat)
    requires Crowd(s, peers, k, 0) && k + 2 <= peers && s'.store == s.store
    requires s'.peers == s.peers[k + 1 := Clearing(Header(7, []), [Challenge(0, 7)])]
    requires s'.log == s.log + [Received(k + 1, Header(7, []))]
    ensures Crowd(s', peers, k + 1, 0)
  {
    SumUpdate(s.peers, k + 1, Clearing(Header(7, []), [Challenge(0, 7)]), InClear(7));
    LogCounts(s.log, [Received(k + 1, Header(7, []))], 0, 7);
    NoAnswers([Received(k + 1, Header(7, []))], 0, 7);
    LogReads(s.log, k);
  }

  lemma {:induction false} OthersRemove(cap: nat, peers: nat, done: nat, w: nat) returns (a: seq<Action>)
    requires 1 <= cap && done <= w && 1 + w <= peers
    ensures ClearsWithin(cap, a, 7, w) && Crowd(Run(cap, a), peers, w - done, done)
    decreases done
  {
    if done == 0 {
      a := OthersRead(cap, peers, w, w);
    } else {
      a := OthersRemove(cap, peers, done - 1, w);
      a := RemoveOne(cap, a, peers, w - done, done - 1, w);
    }
  }

  lemma RemoveOne(cap: nat, a: seq<Action>, peers: nat, reading: nat, done: nat, w: nat) returns (b: seq<Action>)
    requires reading <= w && ClearsWithin(cap, a, 7, w) && Crowd(Run(cap, a), peers, reading + 1, done)
    ensures ClearsWithin(cap, b, 7, w) && Crowd(Run(cap, b), peers, reading, done + 1)
  {
    CrowdRemoves(Run(cap, a), cap, peers, reading, done);
    b := Extend(cap, a, RemoveIt(done + 1), w);
  }

  lemma CrowdRemoves(s: State, cap: nat, peers: nat, reading: nat, done: nat)
    requires Crowd(s, peers, reading + 1, done)
    ensures Crowd(Step(s, cap, RemoveIt(done + 1)), peers, reading, done + 1)
  {
    assert s.peers[done + 1] == Clearing(Header(7, []), [Challenge(0, 7)]);
    assert Read(0, 7)(s.peers[done + 1]) == 1;
    var more := RemovalNotes(s, done + 1, 0, 7);
    StepRemoves(s, cap, done + 1);
    CrowdAfter(s, RemoveStep(s, done + 1), more, peers, reading, done);
    LogRemoves(s.log, reading, done, Replies([Challenge(0, 7)], Header(7, [])));
  }

  lemma CrowdAfter(s: State, s': State, more: seq<Event>, peers: nat, reading: nat, done: nat)
    requires Crowd(s, peers, reading + 1, done) && s'.peers == s.peers[done + 1 := Idle] && s'.log == s.log + more
    requires Sum(more, Answer(0, 7)) == 1 && Remembered(0, 7) !in more
    ensures CrowdLog(s'.log, reading, done + 1) ==> Crowd(s', peers, reading, done + 1)
  {
    assert s.peers[done + 1] == Clearing(Header(7, []), [Challenge(0, 7)]);
    SumUpdate(s.peers, done + 1, Idle, InClear(7));
    LogCounts(s.log, more, 0, 7);
  }

  /** For every capacity and every w there is a run with at most w clears at once in which
      one challenge, remembered once, is answered w times: by w removals, with w replies. */
  lemma AnswersBoundReached(cap: nat, w: nat)
    requires 1 <= cap
    ensures exists actions ::
              var s := Run(cap, actions);
              && ClearsWithin(cap, actions, 7, w)
              && Remembers(s, 0, 7) == 1 && Answers(s, 0, 7) == w
              && exists i :: 0 <= i < |s.log| && s.log[i] == Remembered(0, 7) && TimesAnswered(s.log, i) == w
  {
    var actions := OthersRemove(cap, w + 1, w, w);
    assert Run(cap, actions).log[1] == Remembered(0, 7);
  }
}
