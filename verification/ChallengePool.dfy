/** The sync-challenge pool: one recency cache holding headers under integer keys and
    pending challenges under text keys. */
module ChallengePool {
  import opened Types
  import opened Ring
  import opened Lru

  // ----- Keys -----

  function Digit(d: nat): char
    requires d < 10
  {
    '0' + d as char
  }

  /** Decimal printing, as %d prints an unsigned integer. */
  function Decimal(n: nat): string {
    if n < 10 then [Digit(n)] else Decimal(n / 10) + [Digit(n % 10)]
  }

  function PendingText(height: Uint64): string {
    "p:" + Decimal(height)
  }

  /** The number a string of digits denotes. */
  function ParseDecimal(s: string): int {
    if s == [] then 0 else ParseDecimal(s[..|s| - 1]) * 10 + (s[|s| - 1] as int - '0' as int)
  }

  /** What is printed consists of digits, without a leading zero unless it is just that, and
      reads back as the number. */
  lemma {:induction false} DecimalReads(n: nat)
    ensures var s := Decimal(n);
            && s != [] && (forall i :: 0 <= i < |s| ==> '0' <= s[i] <= '9')
            && (s[0] == '0' ==> s == "0") && ParseDecimal(s) == n
  {
    if n >= 10 {
      DecimalReads(n / 10);
      assert Decimal(n)[..|Decimal(n)| - 1] == Decimal(n / 10);
    } else {
      assert ParseDecimal([]) == 0;
    }
  }

  lemma DecimalInjective(a: nat, b: nat)
    requires Decimal(a) == Decimal(b)
    ensures a == b
  {
    DecimalReads(a);
    DecimalReads(b);
  }

  lemma PendingTextInjective(a: Uint64, b: Uint64)
    requires PendingText(a) == PendingText(b)
    ensures a == b
  {
    assert PendingText(a)[2..] == Decimal(a) && PendingText(b)[2..] == Decimal(b);
    DecimalInjective(a, b);
  }

  datatype Key = Height(height: Uint64) | Text(text: string)

  function PendingKey(height: Uint64): Key {
    Text(PendingText(height))
  }

  // ----- Values -----

  /** A header; only its number matters here. */
  datatype Header = Header(number: nat, rest: Bytes)

  /** A remembered request of a peer. `asked` is the height it was remembered for; the
      program stores only the peer, the model keeps the height to state what is returned. */
  datatype Challenge = Challenge(peer: nat, asked: Uint64)

  datatype Value = Known(header: Header) | Pending(challenges: seq<Challenge>)

  type Store = seq<Entry<Key, Value>>

  /** Integer keys hold headers of that number, text keys the challenges of one height. */
  ghost predicate RightKind(e: Entry<Key, Value>) {
    match e.key
    case Height(n) => e.value.Known? && Low64(e.value.header.number) == n
    case Text(t) =>
      && e.value.Pending?
      && exists n: Uint64 :: t == PendingText(n) && forall c :: c in e.value.challenges ==> c.asked == n
  }

  ghost predicate WellKinded(s: Store) {
    forall e :: e in s ==> RightKind(e)
  }

  // ----- The operations on the list -----

  datatype Op =
    | GetHeader(height: Uint64)
    | AddHeader(header: Header)
    | Remember(who: nat, at: Uint64)
    | Clear(of: Uint64)

  function PendingAt(s: Store, n: Uint64): seq<Challenge> {
    var found := Lookup(s, PendingKey(n));
    if found.Some? && found.value.Pending? then found.value.challenges else []
  }

  function Apply(s: Store, cap: nat, op: Op): Store {
    match op
    case GetHeader(n) => Touch(s, Height(n))
    case AddHeader(h) => Insert(s, cap, Height(Low64(h.number)), Known(h))
    case Remember(p, n) => Insert(s, cap, PendingKey(n), Pending(PendingAt(s, n) + [Challenge(p, n)]))
    case Clear(n) => Without(s, PendingKey(n))
  }

  function RunOps(cap: nat, ops: seq<Op>): Store {
    if ops == [] then [] else Apply(RunOps(cap, ops[..|ops| - 1]), cap, ops[|ops| - 1])
  }

  ghost predicate Good(s: Store, cap: nat) {
    Bounded(s, cap) && WellKinded(s)
  }

  lemma LookupKind(s: Store, k: Key)
    requires WellKinded(s) && Lookup(s, k).Some?
    ensures RightKind(Entry(k, Lookup(s, k).value))
  {
    LookupIsHasKey(s, k);
  }

  /** The challenges found under a height's key were all remembered for that height. */
  lemma PendingKind(s: Store, n: Uint64)
    requires WellKinded(s)
    ensures Lookup(s, PendingKey(n)).Some? ==> Lookup(s, PendingKey(n)).value.Pending?
    ensures forall c :: c in PendingAt(s, n) ==> c.asked == n
  {
    if Lookup(s, PendingKey(n)).Some? {
      var v := Lookup(s, PendingKey(n)).value;
      LookupKind(s, PendingKey(n));
      var m: Uint64 :| PendingText(n) == PendingText(m) && forall c :: c in v.challenges ==> c.asked == m;
      PendingTextInjective(n, m);
    }
  }

  lemma InsertKeepsKinds(s: Store, cap: nat, k: Key, v: Value)
    requires Good(s, cap) && RightKind(Entry(k, v))
    ensures Good(Insert(s, cap, k, v), cap)
  {
    InsertKeepsBounded(s, cap, k, v);
    WithoutFacts(s, k);
    var all := [Entry(k, v)] + Without(s, k);
    assert forall e :: e in Take(all, cap) ==> e in all;
  }

  lemma ApplyKeepsGood(s: Store, cap: nat, op: Op)
    requires Good(s, cap)
    ensures Good(Apply(s, cap, op), cap)
  {
    match op
    case GetHeader(n) =>
      TouchKeepsBounded(s, cap, Height(n));
      WithoutFacts(s, Height(n));
      LookupIsHasKey(s, Height(n));
    case AddHeader(h) =>
      InsertKeepsKinds(s, cap, Height(Low64(h.number)), Known(h));
    case Remember(p, n) =>
      PendingKind(s, n);
      var e := Entry(PendingKey(n), Pending(PendingAt(s, n) + [Challenge(p, n)]));
      assert RightKind(e);
      InsertKeepsKinds(s, cap, e.key, e.value);
    case Clear(n) =>
      WithoutFacts(s, PendingKey(n));
      WithoutKeepsDistinct(s, PendingKey(n));
  }

  lemma {:induction false} TwoKinds(cap: nat, ops: seq<Op>)
    ensures Good(RunOps(cap, ops), cap)
  {
    if ops != [] {
      TwoKinds(cap, ops[..|ops| - 1]);
      ApplyKeepsGood(RunOps(cap, ops[..|ops| - 1]), cap, ops[|ops| - 1]);
    }
  }

  // ----- Exact replay -----

  /** The challenges remembered for n since its last clear, in arrival order. */
  function Since(ops: seq<Op>, n: Uint64): seq<Challenge> {
    if ops == [] then []
    else
      var before := Since(ops[..|ops| - 1], n);
      match ops[|ops| - 1]
      case Remember(p, m) => if m == n then before + [Challenge(p, n)] else before
      case Clear(m) => if m == n then [] else before
      case _ => before
  }

  /** The key an operation inserts. */
  function Inserted(op: Op): Option<Key> {
    match op
    case AddHeader(h) => Some(Height(Low64(h.number)))
    case Remember(_, m) => Some(PendingKey(m))
    case _ => None
  }

  /** The keys in front of n's since it was last remembered: those inserted or hit after
      that, without the ones cleared again. A miss uses nothing. */
  function OthersSince(cap: nat, ops: seq<Op>, n: Uint64): set<Key> {
    if ops == [] then {}
    else
      var p, op := ops[..|ops| - 1], ops[|ops| - 1];
      var before := OthersSince(cap, p, n);
      match op
      case GetHeader(m) => before + if Lookup(RunOps(cap, p), Height(m)).Some? then {Height(m)} else {}
      case AddHeader(h) => before + {Height(Low64(h.number))}
      case Remember(_, m) => if m == n then {} else before + {PendingKey(m)}
      case Clear(m) => before - {PendingKey(m)}
  }

  /** The operation inserts a key that pushes the challenges waiting for n out. */
  predicate PushesOut(cap: nat, ops: seq<Op>, op: Op, n: Uint64) {
    && Since(ops, n) != []
    && Inserted(op).Some? && Inserted(op).value != PendingKey(n)
    && |OthersSince(cap, ops, n) + {Inserted(op).value}| >= cap
  }

  /** Since the last clear of n, no operation pushed its waiting challenges out. */
  predicate Undisturbed(cap: nat, ops: seq<Op>, n: Uint64) {
    ops == []
    || ops[|ops| - 1] == Clear(n)
    || (Undisturbed(cap, ops[..|ops| - 1], n) && !PushesOut(cap, ops[..|ops| - 1], ops[|ops| - 1], n))
  }

  /** While undisturbed, the waiting challenges are cached behind exactly the keys listed;
      once disturbed, fewer are cached than wait. */
  ghost predicate Waiting(s: Store, cap: nat, ops: seq<Op>, n: Uint64) {
    var k := PendingKey(n);
    if !Undisturbed(cap, ops, n) then |PendingAt(s, n)| < |Since(ops, n)|
    else if Since(ops, n) == [] then Lookup(s, k).None?
    else Lookup(s, k) == Some(Pending(Since(ops, n))) && Ahead(s, k) == OthersSince(cap, ops, n)
  }

  lemma OtherInsertKeepsWaiting(s: Store, cap: nat, ops: seq<Op>, op: Op, n: Uint64, k: Key, v: Value)
    requires Bounded(s, cap) && Waiting(s, cap, ops, n)
    requires Inserted(op) == Some(k) && k != PendingKey(n) && !(op.Remember? && op.at == n)
    ensures Waiting(Insert(s, cap, k, v), cap, ops + [op], n)
  {
    assert (ops + [op])[..|ops|] == ops;
    InsertKeepsOtherIff(s, cap, k, v, PendingKey(n));
  }

  lemma RememberKeepsWaiting(s: Store, cap: nat, ops: seq<Op>, p: nat, n: Uint64)
    requires 1 <= cap && Waiting(s, cap, ops, n)
    ensures Waiting(Apply(s, cap, Remember(p, n)), cap, ops + [Remember(p, n)], n)
  {
    assert (ops + [Remember(p, n)])[..|ops|] == ops;
    InsertStores(s, cap, PendingKey(n), Pending(PendingAt(s, n) + [Challenge(p, n)]));
  }

  lemma GetKeepsWaiting(s: Store, cap: nat, ops: seq<Op>, m: Uint64, n: Uint64)
    requires Waiting(s, cap, ops, n) && s == RunOps(cap, ops)
    ensures Waiting(Touch(s, Height(m)), cap, ops + [GetHeader(m)], n)
  {
    assert (ops + [GetHeader(m)])[..|ops|] == ops;
    TouchKeepsOther(s, Height(m), PendingKey(n));
  }

  lemma ClearKeepsWaiting(s: Store, cap: nat, ops: seq<Op>, m: Uint64, n: Uint64)
    requires Waiting(s, cap, ops, n)
    ensures Waiting(Without(s, PendingKey(m)), cap, ops + [Clear(m)], n)
  {
    assert (ops + [Clear(m)])[..|ops|] == ops;
    if m == n {
      WithoutFacts(s, PendingKey(n));
      LookupIsHasKey(Without(s, PendingKey(n)), PendingKey(n));
    } else {
      if PendingText(m) == PendingText(n) {
        PendingTextInjective(m, n);
      }
      WithoutOther(s, PendingKey(m), PendingKey(n));
    }
  }

  lemma {:induction false} RunKeepsWaiting(cap: nat, ops: seq<Op>, n: Uint64)
    requires 1 <= cap
    ensures Waiting(RunOps(cap, ops), cap, ops, n)
  {
    if ops != [] {
      var p, op := ops[..|ops| - 1], ops[|ops| - 1];
      var s := RunOps(cap, p);
      assert ops == p + [op];
      RunKeepsWaiting(cap, p, n);
      TwoKinds(cap, p);
      match op
      case GetHeader(m) => GetKeepsWaiting(s, cap, p, m, n);
      case AddHeader(h) => OtherInsertKeepsWaiting(s, cap, p, op, n, Height(Low64(h.number)), Known(h));
      case Remember(q, m) =>
        if m == n {
          RememberKeepsWaiting(s, cap, p, q, n);
        } else {
          if PendingText(m) == PendingText(n) {
            PendingTextInjective(m, n);
          }
          OtherInsertKeepsWaiting(s, cap, p, op, n, PendingKey(m), Pending(PendingAt(s, m) + [Challenge(q, m)]));
        }
      case Clear(m) => ClearKeepsWaiting(s, cap, p, m, n);
    }
  }

  /** After any operations, clearing a height returns exactly the challenges remembered since
      its last clear, in arrival order, if and only if no operation since then pushed them
      out; it leaves nothing behind. */
  lemma ClearReplays(cap: nat, ops: seq<Op>, n: Uint64)
    requires 1 <= cap
    ensures PendingAt(RunOps(cap, ops), n) == Since(ops, n) <==> Undisturbed(cap, ops, n)
    ensures PendingAt(RunOps(cap, ops + [Clear(n)]), n) == []
  {
    RunKeepsWaiting(cap, ops, n);
    assert (ops + [Clear(n)])[..|ops|] == ops;
    WithoutFacts(RunOps(cap, ops), PendingKey(n));
    LookupIsHasKey(Without(RunOps(cap, ops), PendingKey(n)), PendingKey(n));
  }

  /** Whatever follows a remember, as long as the height itself is not touched again: its
      challenges are still there if and only if no later insertion left cap or more keys in
      front of them. */
  lemma {:induction false} EvictedExactlyAtCap(cap: nat, ops: seq<Op>, i: nat)
    requires 1 <= cap && i < |ops| && ops[i].Remember?
    requires forall j :: i < j < |ops| ==> ops[j] != Clear(ops[i].at) && !(ops[j].Remember? && ops[j].at == ops[i].at)
    ensures var k, n := PendingKey(ops[i].at), ops[i].at;
            && (Lookup(RunOps(cap, ops), k).Some? <==> RoomAfter(cap, ops, i, n))
            && (Lookup(RunOps(cap, ops), k).Some? ==> Ahead(RunOps(cap, ops), k) == OthersSince(cap, ops, n))
    decreases |ops|
  {
    var n, k := ops[i].at, PendingKey(ops[i].at);
    var p, op := ops[..|ops| - 1], ops[|ops| - 1];
    var s := RunOps(cap, p);
    assert ops == p + [op];
    TwoKinds(cap, p);
    if i == |ops| - 1 {
      InsertStores(s, cap, k, Pending(PendingAt(s, n) + [Challenge(op.who, n)]));
    } else {
      EvictedExactlyAtCap(cap, p, i);
      OneMoreOp(s, cap, p, op, n);
      RoomOneMore(cap, p, op, i, n);
    }
  }

  /** No insertion after position i left cap or more keys in front of n's. */
  ghost predicate RoomAfter(cap: nat, ops: seq<Op>, i: nat, n: Uint64) {
    forall j :: i < j < |ops| ==> Room(cap, ops[..j], ops[j], n)
  }

  predicate Room(cap: nat, ops: seq<Op>, op: Op, n: Uint64) {
    Inserted(op).Some? ==> |OthersSince(cap, ops, n) + {Inserted(op).value}| < cap
  }

  lemma RoomOneMore(cap: nat, ops: seq<Op>, op: Op, i: nat, n: Uint64)
    requires i < |ops|
    ensures RoomAfter(cap, ops + [op], i, n) <==> RoomAfter(cap, ops, i, n) && Room(cap, ops, op, n)
  {
    var all := ops + [op];
    assert forall j :: 0 <= j < |ops| ==> all[..j] == ops[..j] && all[j] == ops[j];
    assert all[..|ops|] == ops && all[|ops|] == op;
    if RoomAfter(cap, all, i, n) {
      assert Room(cap, all[..|ops|], all[|ops|], n);
      forall j | i < j < |ops| ensures Room(cap, ops[..j], ops[j], n) {
        assert Room(cap, all[..j], all[j], n);
      }
    }
  }

  /** What one operation on other keys does to the entry of n and the keys in front of it. */
  lemma OneMoreOp(s: Store, cap: nat, ops: seq<Op>, op: Op, n: Uint64)
    requires Good(s, cap) && s == RunOps(cap, ops) && op != Clear(n) && !(op.Remember? && op.at == n)
    requires Lookup(s, PendingKey(n)).Some? ==> Ahead(s, PendingKey(n)) == OthersSince(cap, ops, n)
    ensures var s' := Apply(s, cap, op);
            && (Lookup(s', PendingKey(n)).Some? <==> Lookup(s, PendingKey(n)).Some? && Room(cap, ops, op, n))
            && (Lookup(s', PendingKey(n)).Some? ==> Ahead(s', PendingKey(n)) == OthersSince(cap, ops + [op], n))
  {
    var k := PendingKey(n);
    assert (ops + [op])[..|ops|] == ops;
    if (op.Remember? && PendingText(op.at) == PendingText(n)) || (op.Clear? && PendingText(op.of) == PendingText(n)) {
      PendingTextInjective(if op.Remember? then op.at else op.of, n);
    }
    match op
    case GetHeader(m) => TouchKeepsOther(s, Height(m), k);
    case AddHeader(h) => InsertKeepsOtherIff(s, cap, Height(Low64(h.number)), Known(h), k);
    case Remember(q, m) =>
      InsertKeepsOtherIff(s, cap, PendingKey(m), Pending(PendingAt(s, m) + [Challenge(q, m)]), k);
    case Clear(m) => WithoutOther(s, PendingKey(m), k);
  }

  /** The latest header added for a number is the one found, whatever was there before. */
  lemma LastHeaderWins(cap: nat, ops: seq<Op>, h: Header)
    requires 1 <= cap
    ensures Lookup(RunOps(cap, ops + [AddHeader(h)]), Height(Low64(h.number))) == Some(Known(h))
  {
    assert (ops + [AddHeader(h)])[..|ops|] == ops;
    InsertStores(RunOps(cap, ops), cap, Height(Low64(h.number)), Known(h));
  }

  // ----- The pool object -----

  class SyncChallengeHeaderPool {
    const cache: Cache<Key, Value>

    ghost predicate Valid()
      reads this, cache, cache.slots
    {
      cache.Valid() && WellKinded(cache.Contents())
    }

    ghost function Contents(): Store
      requires cache.Valid()
      reads this, cache, cache.slots
    {
      cache.Contents()
    }

    constructor (cap: nat)
      requires 1 <= cap
      ensures Valid() && fresh(cache) && fresh(cache.slots)
      ensures cache.slots.Length == cap && Contents() == []
    {
      cache := new Cache<Key, Value>(cap);
    }

    /** The assertion that the value is a header cannot fail, and its number is the height. */
    method GetHeader(height: Uint64) returns (r: Option<Header>)
      requires Valid()
      modifies cache.slots
      ensures Valid() && Contents() == Apply(old(Contents()), cache.slots.Length, Op.GetHeader(height))
      ensures r.Some? <==> Lookup(old(Contents()), Height(height)).Some?
      ensures r.Some? ==> Lookup(old(Contents()), Height(height)) == Some(Known(r.value))
      ensures r.Some? ==> Low64(r.value.number) == height
    {
      ghost var s := Contents();
      ApplyKeepsGood(s, cache.slots.Length, Op.GetHeader(height));
      var v := cache.Get(Height(height));
      if v.None? {
        return None;
      }
      LookupKind(s, Height(height));
      assert v.value.Known?;
      r := Some(v.value.header);
    }

    /** The compare-and-set followed by the unconditional Add amounts to that Add alone:
        the latest header wins. */
    method AddHeaderIfNotExists(header: Header)
      requires Valid()
      modifies cache, cache.slots
      ensures Valid() && Contents() == Apply(old(Contents()), cache.slots.Length, AddHeader(header))
    {
      ghost var s := Contents();
      var key := Height(Low64(header.number));
      ApplyKeepsGood(s, cache.slots.Length, AddHeader(header));
      InsertTwiceIsInsert(s, cache.slots.Length, key, Known(header), false);
      var existing := cache.RGet(key);
      if existing.None? {
        cache.Add(key, Known(header));
      }
      cache.Add(key, Known(header));
    }

    method RememberChallenge(height: Uint64, peer: nat)
      requires Valid()
      modifies cache, cache.slots
      ensures Valid() && Contents() == Apply(old(Contents()), cache.slots.Length, Remember(peer, height))
    {
      ghost var s := Contents();
      var key := PendingKey(height);
      ApplyKeepsGood(s, cache.slots.Length, Remember(peer, height));
      PendingKind(s, height);
      TouchThenInsert(s, cache.slots.Length, key);
      var pending := cache.Get(key);
      if pending.None? {
        assert PendingAt(s, height) + [Challenge(peer, height)] == [Challenge(peer, height)];
        cache.Add(key, Pending([Challenge(peer, height)]));
        return;
      }
      cache.Add(key, Pending(pending.value.challenges + [Challenge(peer, height)]));
    }

    /** Every challenge returned was remembered for exactly this height. */
    method ClearChallenge(height: Uint64) returns (challenges: seq<Challenge>)
      requires Valid()
      modifies cache, cache.slots
      ensures Valid() && Contents() == Apply(old(Contents()), cache.slots.Length, Clear(height))
      ensures challenges == PendingAt(old(Contents()), height)
      ensures forall c :: c in challenges ==> c.asked == height
    {
      ghost var s := Contents();
      var key := PendingKey(height);
      ApplyKeepsGood(s, cache.slots.Length, Clear(height));
      PendingKind(s, height);
      var pending := cache.RGet(key);
      if pending.None? {
        WithoutFacts(s, key);
        LookupIsHasKey(s, key);
        return [];
      }
      cache.Remove(key);
      challenges := pending.value.challenges;
    }
  }

  lemma TouchThenInsert(s: Store, cap: nat, k: Key)
    requires Bounded(s, cap)
    ensures forall v :: Insert(Touch(s, k), cap, k, v) == Insert(s, cap, k, v)
  {
    WithoutFacts(s, k);
    WithoutFacts(Without(s, k), k);
    if Lookup(s, k).Some? {
      assert Touch(s, k)[1..] == Without(s, k);
    }
  }
}
