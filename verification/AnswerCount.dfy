/** How often a peer is answered for one height in all when clears of that height overlap. */
module AnswerCount {
  import opened Types
  import opened Sequences
  import opened ChallengePool
  import opened ChallengeRelay

  /** One for a clear of height n in progress. */
  function InClear(n: Uint64): Phase -> nat {
    (ph: Phase) => if ph.Clearing? && Low64(ph.header.number) == n then 1 else 0
  }

  /** The challenges of p for n that such a clear has read and not yet answered. */
  function Read(p: nat, n: Uint64): Phase -> nat {
    (ph: Phase) => if ph.Clearing? && Low64(ph.header.number) == n then multiset(ph.found)[Challenge(p, n)] else 0
  }

  /** One for a reply to p with a header of height n. */
  function Answer(p: nat, n: Uint64): Event -> nat {
    (e: Event) => if e.Replied? && e.peer == p && Low64(e.header.number) == n then 1 else 0
  }

  function Clears(s: State, n: Uint64): nat {
    Sum(s.peers, InClear(n))
  }

  function Answers(s: State, p: nat, n: Uint64): nat {
    Sum(s.log, Answer(p, n))
  }

  function Remembers(s: State, p: nat, n: Uint64): nat {
    multiset(s.log)[Remembered(p, n)]
  }

  function Waits(s: State, p: nat, n: Uint64): nat {
    multiset(PendingAt(s.store, n))[Challenge(p, n)]
  }

  /** Never more than w clears of height n at once, in the whole run. */
  ghost predicate ClearsWithin(cap: nat, actions: seq<Action>, n: Uint64, w: nat) {
    forall k :: 0 <= k <= |actions| ==> Clears(Run(cap, actions[..k]), n) <= w
  }

  /** What concerns one peer and height: answers given, answers read by clears in progress,
      challenges waiting, clears in progress, and challenges ever remembered. */
  datatype Tally = Tally(answers: nat, read: nat, waits: nat, clears: nat, remembers: nat)

  function TallyOf(s: State, p: nat, n: Uint64): Tally {
    Tally(Answers(s, p, n), Sum(s.peers, Read(p, n)), Waits(s, p, n), Clears(s, n), Remembers(s, p, n))
  }

  /** Answers given, answers read, and answers still possible to a waiting challenge, which
      every further clear may read: together no more than w for each one remembered. */
  ghost predicate Within(t: Tally, w: nat) {
    t.clears <= w && t.answers + t.read + t.waits * (w - t.clears) <= w * t.remembers
  }

  ghost predicate WithinBound(s: State, p: nat, n: Uint64, w: nat) {
    Within(TallyOf(s, p, n), w)
  }

  lemma FewerWait(t: Tally, t': Tally, w: nat)
    requires Within(t, w) && t'.waits <= t.waits && t' == t.(waits := t'.waits)
    ensures Within(t', w)
  {
    LessTimes(t'.waits, t.waits, w - t.clears);
  }

  lemma LessTimes(x: nat, y: nat, free: nat)
    requires x <= y
    ensures x * free <= y * free
  {
  }

  lemma OneReads(t: Tally, t': Tally, w: nat)
    requires Within(t, w) && t.clears + 1 <= w && t' == t.(read := t.read + t.waits, clears := t.clears + 1)
    ensures Within(t', w)
  {
    var free := w - t.clears - 1;
    assert t.waits * (free + 1) == t.waits * free + t.waits;
  }

  lemma OneMoreWaits(t: Tally, t': Tally, w: nat)
    requires Within(t, w) && t' == t.(waits := t.waits + 1, remembers := t.remembers + 1)
    ensures Within(t', w)
  {
    assert (t.waits + 1) * (w - t.clears) == t.waits * (w - t.clears) + (w - t.clears);
    assert w * (t.remembers + 1) == w * t.remembers + w;
  }

  lemma OneAnswers(t: Tally, t': Tally, w: nat, given: nat)
    requires Within(t, w) && given <= t.read && 1 <= t.clears
    requires t' == t.(answers := t.answers + given, read := t.read - given, waits := 0, clears := t.clears - 1)
    ensures Within(t', w)
  {
    LessTimes(0, t.waits, w - t.clears);
  }

  /** Steps that answer nothing, read nothing and remember nothing for p and n. */
  lemma NeutralStep(s: State, s': State, more: seq<Event>, p: nat, n: Uint64, w: nat)
    requires WithinBound(s, p, n, w) && s'.log == s.log + more
    requires Sum(more, Answer(p, n)) == 0 && Remembered(p, n) !in more
    requires Sum(s'.peers, InClear(n)) == Sum(s.peers, InClear(n))
    requires Sum(s'.peers, Read(p, n)) == Sum(s.peers, Read(p, n))
    requires PendingAt(s'.store, n) == PendingAt(s.store, n) || PendingAt(s'.store, n) == []
    ensures WithinBound(s', p, n, w)
  {
    LogCounts(s.log, more, p, n);
    FewerWait(TallyOf(s, p, n), TallyOf(s', p, n), w);
  }

  lemma LogCounts(log: seq<Event>, more: seq<Event>, p: nat, n: Uint64)
    ensures Sum(log + more, Answer(p, n)) == Sum(log, Answer(p, n)) + Sum(more, Answer(p, n))
    ensures multiset(log + more)[Remembered(p, n)] == multiset(log)[Remembered(p, n)] + multiset(more)[Remembered(p, n)]
  {
    SumAppend(log, more, Answer(p, n));
  }

  lemma QuietStep(s: State, s': State, more: seq<Event>, p: nat, n: Uint64, w: nat)
    requires WithinBound(s, p, n, w) && s'.log == s.log + more
    requires forall e :: e in more ==> !e.Replied? && e != Remembered(p, n)
    requires Sum(s'.peers, InClear(n)) == Sum(s.peers, InClear(n))
    requires Sum(s'.peers, Read(p, n)) == Sum(s.peers, Read(p, n))
    requires PendingAt(s'.store, n) == PendingAt(s.store, n) || PendingAt(s'.store, n) == []
    ensures WithinBound(s', p, n, w)
  {
    NoAnswers(more, p, n);
    NeutralStep(s, s', more, p, n, w);
  }

  lemma {:induction false} NoAnswers(more: seq<Event>, p: nat, n: Uint64)
    requires forall e :: e in more ==> !e.Replied?
    ensures Sum(more, Answer(p, n)) == 0
  {
    if more != [] {
      NoAnswers(more[..|more| - 1], p, n);
    }
  }

  /** Remembering for n itself: one more may wait. */
  lemma RememberHere(s: State, s': State, more: seq<Event>, q: nat, p: nat, n: Uint64, w: nat)
    requires WithinBound(s, p, n, w) && s'.log == s.log + more
    requires Sum(more, Answer(p, n)) == 0 && multiset(more)[Remembered(p, n)] == if q == p then 1 else 0
    requires Sum(s'.peers, InClear(n)) == Sum(s.peers, InClear(n))
    requires Sum(s'.peers, Read(p, n)) == Sum(s.peers, Read(p, n))
    requires PendingAt(s'.store, n) == PendingAt(s.store, n) + [Challenge(q, n)]
    ensures WithinBound(s', p, n, w)
  {
    LogCounts(s.log, more, p, n);
    assert Waits(s', p, n) == Waits(s, p, n) + if q == p then 1 else 0;
    if q == p {
      OneMoreWaits(TallyOf(s, p, n), TallyOf(s', p, n), w);
    } else {
      assert TallyOf(s', p, n) == TallyOf(s, p, n);
    }
  }

  lemma RememberBound(s: State, cap: nat, q: nat, p: nat, n: Uint64, w: nat)
    requires 1 <= cap && Good(s.store, cap) && q < |s.peers| && s.peers[q].Reflected? && WithinBound(s, p, n, w)
    ensures WithinBound(RememberStep(s, cap, q), p, n, w)
  {
    var s', m := RememberStep(s, cap, q), s.peers[q].height;
    var k, v := PendingKey(m), Pending(PendingAt(s.store, m) + [Challenge(q, m)]);
    var more := RememberNotes(s, cap, q, p, n);
    SumUpdate(s.peers, q, Idle, InClear(n));
    SumUpdate(s.peers, q, Idle, Read(p, n));
    InsertPending(s.store, cap, k, v, n);
    if m == n {
      RememberHere(s, s', more, q, p, n, w);
    } else {
      if k == PendingKey(n) {
        PendingTextInjective(m, n);
      }
      NeutralStep(s, s', more, p, n, w);
    }
  }

  lemma RememberNotes(s: State, cap: nat, q: nat, p: nat, n: Uint64) returns (more: seq<Event>)
    requires q < |s.peers| && s.peers[q].Reflected?
    ensures RememberStep(s, cap, q).log == s.log + more && Sum(more, Answer(p, n)) == 0
    ensures multiset(more)[Remembered(p, n)] == if q == p && s.peers[q].height == n then 1 else 0
  {
    more := Note(s, cap, RememberIt(q));
    var note := Evictions(s.store, cap, PendingKey(s.peers[q].height));
    NoteIsLogged(s, cap, RememberIt(q));
    NoAnswers(more, p, n);
    assert Remembered(p, n) !in note;
    assert multiset(more) == multiset(note) + multiset{Remembered(q, s.peers[q].height)};
  }

  lemma ReadBound(s: State, q: nat, header: Header, p: nat, n: Uint64, w: nat)
    requires q < |s.peers| && s.peers[q].Idle? && WithinBound(s, p, n, w)
    requires Clears(ReadStep(s, q, header), n) <= w
    ensures WithinBound(ReadStep(s, q, header), p, n, w)
  {
    var s', m := ReadStep(s, q, header), Low64(header.number);
    SumUpdate(s.peers, q, s'.peers[q], InClear(n));
    SumUpdate(s.peers, q, s'.peers[q], Read(p, n));
    assert s'.peers == s.peers[q := s'.peers[q]];
    if m == n && s'.peers[q].Clearing? {
      NoAnswers([Received(q, header)], p, n);
      ReadHere(s, s', [Received(q, header)], p, n, w);
    } else {
      QuietStep(s, s', [Received(q, header)], p, n, w);
    }
  }

  /** Reading for n itself: one more clear holds what waits. */
  lemma ReadHere(s: State, s': State, more: seq<Event>, p: nat, n: Uint64, w: nat)
    requires WithinBound(s, p, n, w) && s'.log == s.log + more && Clears(s', n) <= w
    requires Sum(more, Answer(p, n)) == 0 && Remembered(p, n) !in more
    requires Sum(s'.peers, InClear(n)) == Sum(s.peers, InClear(n)) + 1
    requires Sum(s'.peers, Read(p, n)) == Sum(s.peers, Read(p, n)) + Waits(s, p, n)
    requires PendingAt(s'.store, n) == PendingAt(s.store, n)
    ensures WithinBound(s', p, n, w)
  {
    LogCounts(s.log, more, p, n);
    OneReads(TallyOf(s, p, n), TallyOf(s', p, n), w);
  }

  /** The replies of one removal to p are the challenges of p it had read. */
  lemma {:induction false} RepliesCount(found: seq<Challenge>, header: Header, p: nat, n: Uint64)
    requires forall i :: 0 <= i < |found| ==> found[i].asked == Low64(header.number)
    ensures Sum(Replies(found, header), Answer(p, n))
            == if Low64(header.number) == n then multiset(found)[Challenge(p, n)] else 0
  {
    var replies := Replies(found, header);
    if found != [] {
      var k := |found| - 1;
      RepliesCount(found[..k], header, p, n);
      assert replies[..k] == Replies(found[..k], header);
      assert found == found[..k] + [found[k]];
    }
  }

  /** Removing for n itself: what was read is answered, and nothing waits. */
  lemma RemoveHere(s: State, s': State, more: seq<Event>, given: nat, p: nat, n: Uint64, w: nat)
    requires WithinBound(s, p, n, w) && s'.log == s.log + more
    requires Sum(more, Answer(p, n)) == given && Remembered(p, n) !in more
    requires Sum(s'.peers, InClear(n)) + 1 == Sum(s.peers, InClear(n))
    requires Sum(s'.peers, Read(p, n)) + given == Sum(s.peers, Read(p, n))
    requires PendingAt(s'.store, n) == []
    ensures WithinBound(s', p, n, w)
  {
    LogCounts(s.log, more, p, n);
    OneAnswers(TallyOf(s, p, n), TallyOf(s', p, n), w, given);
  }

  lemma RemovalNotes(s: State, q: nat, p: nat, n: Uint64) returns (more: seq<Event>)
    requires q < |s.peers| && s.peers[q].Clearing?
    requires forall i :: 0 <= i < |s.peers[q].found| ==> s.peers[q].found[i].asked == Low64(s.peers[q].header.number)
    ensures RemoveStep(s, q).log == s.log + more && Remembered(p, n) !in more
    ensures Sum(more, Answer(p, n)) == Read(p, n)(s.peers[q])
  {
    var c := s.peers[q];
    var removed := [Removed(Low64(c.header.number), q)];
    var replies := Replies(c.found, c.header);
    more := removed + replies;
    assert RemoveStep(s, q).log == s.log + more;
    NoAnswers(removed, p, n);
    RepliesCount(c.found, c.header, p, n);
    SumAppend(removed, replies, Answer(p, n));
  }

  lemma RemoveBound(s: State, q: nat, p: nat, n: Uint64, w: nat)
    requires q < |s.peers| && s.peers[q].Clearing? && WithinBound(s, p, n, w)
    requires forall i :: 0 <= i < |s.peers[q].found| ==> s.peers[q].found[i].asked == Low64(s.peers[q].header.number)
    ensures WithinBound(RemoveStep(s, q), p, n, w)
  {
    var s', m := RemoveStep(s, q), Low64(s.peers[q].header.number);
    var more := RemovalNotes(s, q, p, n);
    SumUpdate(s.peers, q, Idle, InClear(n));
    SumUpdate(s.peers, q, Idle, Read(p, n));
    WithoutPending(s.store, PendingKey(m), n);
    if m == n {
      RemoveHere(s, s', more, Read(p, n)(s.peers[q]), p, n, w);
    } else {
      if PendingText(m) == PendingText(n) {
        PendingTextInjective(m, n);
      }
      NeutralStep(s, s', more, p, n, w);
    }
  }

  lemma JoinBound(s: State, p: nat, n: Uint64, w: nat)
    requires WithinBound(s, p, n, w)
    ensures WithinBound(s.(peers := s.peers + [Idle]), p, n, w)
  {
    SumAppend(s.peers, [Idle], InClear(n));
    SumAppend(s.peers, [Idle], Read(p, n));
    QuietStep(s, s.(peers := s.peers + [Idle]), [], p, n, w);
  }

  lemma AskBound(s: State, q: nat, m: Uint64, p: nat, n: Uint64, w: nat)
    requires WithinBound(s, p, n, w) && q < |s.peers| && s.peers[q].Idle?
    ensures WithinBound(s.(peers := s.peers[q := Reflected(m)], log := s.log + [Asked(q, m)]), p, n, w)
  {
    SumUpdate(s.peers, q, Reflected(m), InClear(n));
    SumUpdate(s.peers, q, Reflected(m), Read(p, n));
    QuietStep(s, s.(peers := s.peers[q := Reflected(m)], log := s.log + [Asked(q, m)]), [Asked(q, m)], p, n, w);
  }

  lemma StepBound(s: State, cap: nat, a: Action, p: nat, n: Uint64, w: nat)
    requires 1 <= cap && AskedInv(s, cap) && WithinBound(s, p, n, w) && Clears(Step(s, cap, a), n) <= w
    ensures WithinBound(Step(s, cap, a), p, n, w)
  {
    if !Enabled(s, a) {
      return;
    }
    var s' := Step(s, cap, a);
    match a
    case Join => JoinBound(s, p, n, w);
    case Ask(q, m) => AskBound(s, q, m, p, n, w);
    case RememberIt(q) => RememberBound(s, cap, q, p, n, w);
    case Receive(q, hs) => ReadBound(s, q, hs[0], p, n, w);
    case RemoveIt(q) =>
      assert PeerAsked(s.log, q, s.peers[q]);
      RemoveBound(s, q, p, n, w);
    case UseHeader(h) =>
      TouchPending(s.store, h, n);
      QuietStep(s, s', [], p, n, w);
    case CacheHeader(h) =>
      var k, v := Height(Low64(h.number)), Known(h);
      var note := EvictionNote(s, cap, k, v);
      InsertPending(s.store, cap, k, v, n);
      QuietStep(s, s', note, p, n, w);
    case Expire(k) =>
      WithoutPending(s.store, k, n);
      QuietStep(s, s', [Expired(k)], p, n, w);
  }

  lemma {:induction false} RunWithinBound(cap: nat, actions: seq<Action>, p: nat, n: Uint64, w: nat)
    requires 1 <= cap && ClearsWithin(cap, actions, n, w)
    ensures WithinBound(Run(cap, actions), p, n, w)
  {
    if actions != [] {
      var before := actions[..|actions| - 1];
      assert forall k :: 0 <= k <= |before| ==> before[..k] == actions[..k];
      RunWithinBound(cap, before, p, n, w);
      RunAsked(cap, before);
      assert actions[..|actions|] == actions;
      StepBound(Run(cap, before), cap, actions[|actions| - 1], p, n, w);
    }
  }

  /** If at most w clears of height n are ever in progress at once, a peer gets at most w
      answers for n for each time it was remembered, all its challenges taken together. */
  lemma AnswersBounded(cap: nat, actions: seq<Action>, p: nat, n: Uint64, w: nat)
    requires 1 <= cap && ClearsWithin(cap, actions, n, w)
    ensures Answers(Run(cap, actions), p, n) <= w * Remembers(Run(cap, actions), p, n)
  {
    RunWithinBound(cap, actions, p, n, w);
    BoundMeans(Run(cap, actions), p, n, w);
  }

  lemma BoundMeans(s: State, p: nat, n: Uint64, w: nat)
    requires WithinBound(s, p, n, w)
    ensures Answers(s, p, n) <= w * Remembers(s, p, n)
  {
    LessTimes(0, Waits(s, p, n), w - Clears(s, n));
  }
}
