/** The bounded recency cache under the sync-challenge pool. The model is a list of
    entries, most recently used first; the class keeps that list in an array. */
module Lru {
  import opened Types
  import opened Ring

  function Lookup<K(==), V>(s: seq<Entry<K, V>>, k: K): Option<V> {
    if s == [] then None
    else if s[0].key == k then Some(s[0].value)
    else Lookup(s[1..], k)
  }

  function Without<K(==), V>(s: seq<Entry<K, V>>, k: K): seq<Entry<K, V>> {
    if s == [] then []
    else if s[0].key == k then Without(s[1..], k)
    else [s[0]] + Without(s[1..], k)
  }

  function Take<T>(s: seq<T>, n: nat): seq<T> {
    if |s| <= n then s else s[..n]
  }

  /** What Add does: the entry becomes the most recent one; the least recent falls out when full. */
  function Insert<K(==), V>(s: seq<Entry<K, V>>, cap: nat, k: K, v: V): seq<Entry<K, V>> {
    Take([Entry(k, v)] + Without(s, k), cap)
  }

  /** What Get does to the order: a hit moves to the front, a miss changes nothing. */
  function Touch<K(==), V>(s: seq<Entry<K, V>>, k: K): seq<Entry<K, V>> {
    if Lookup(s, k).Some? then [Entry(k, Lookup(s, k).value)] + Without(s, k) else s
  }

  /** The keys used more recently than k. */
  function Ahead<K(==), V>(s: seq<Entry<K, V>>, k: K): set<K> {
    if s == [] || s[0].key == k then {} else {s[0].key} + Ahead(s[1..], k)
  }

  ghost predicate Bounded<K, V>(s: seq<Entry<K, V>>, cap: nat) {
    DistinctKeys(s) && |s| <= cap
  }

  lemma {:induction false} LookupIsHasKey<K, V>(s: seq<Entry<K, V>>, k: K)
    ensures Lookup(s, k).Some? <==> HasKey(s, k)
    ensures Lookup(s, k).Some? ==> Entry(k, Lookup(s, k).value) in s
  {
    if s != [] {
      LookupIsHasKey(s[1..], k);
      if s[0].key != k && HasKey(s, k) {
        var i :| 0 <= i < |s| && s[i].key == k;
        assert s[1..][i - 1].key == k;
      }
      if HasKey(s[1..], k) {
        var i :| 0 <= i < |s[1..]| && s[1..][i].key == k;
        assert s[i + 1].key == k;
      }
    }
  }

  lemma {:induction false} WithoutFacts<K, V>(s: seq<Entry<K, V>>, k: K)
    ensures forall e :: e in Without(s, k) <==> e in s && e.key != k
    ensures !HasKey(Without(s, k), k) && |Without(s, k)| <= |s|
    ensures HasKey(s, k) ==> |Without(s, k)| < |s|
    ensures !HasKey(s, k) ==> Without(s, k) == s
  {
    if s != [] {
      var t := s[1..];
      WithoutFacts(t, k);
      var w := Without(t, k);
      assert s == [s[0]] + t;
      if HasKey(s, k) && s[0].key != k {
        var i :| 0 <= i < |s| && s[i].key == k;
        assert t[i - 1].key == k;
      }
      assert HasKey(t, k) ==> HasKey(s, k) by {
        if i :| 0 <= i < |t| && t[i].key == k {
          assert s[i + 1].key == k;
        }
      }
    }
  }

  lemma {:induction false} WithoutComesFrom<K, V>(s: seq<Entry<K, V>>, k: K, i: nat) returns (j: nat)
    requires i < |Without(s, k)|
    ensures j < |s| && s[j] == Without(s, k)[i]
  {
    j := 0;
    if s[0].key == k || i > 0 {
      var m := WithoutComesFrom(s[1..], k, if s[0].key == k then i else i - 1);
      j := m + 1;
    }
  }

  lemma {:induction false} WithoutKeepsDistinct<K, V>(s: seq<Entry<K, V>>, k: K)
    requires DistinctKeys(s)
    ensures DistinctKeys(Without(s, k))
  {
    if s != [] {
      var w := Without(s[1..], k);
      WithoutKeepsDistinct(s[1..], k);
      forall i | 0 <= i < |w| ensures w[i].key != s[0].key {
        var j := WithoutComesFrom(s[1..], k, i);
      }
    }
  }

  lemma {:induction false} WithoutIsShorter<K, V>(s: seq<Entry<K, V>>, k: K)
    ensures |Without(s, k)| <= |s| - if Lookup(s, k).Some? then 1 else 0
    ensures forall i :: 0 <= i < |Without(s, k)| ==> Without(s, k)[i].key != k
  {
    if s != [] {
      WithoutIsShorter(s[1..], k);
    }
  }

  /** A key taken out and put in front keeps keys distinct. */
  lemma FrontKeepsDistinct<K, V>(s: seq<Entry<K, V>>, k: K, v: V)
    requires DistinctKeys(s)
    ensures DistinctKeys([Entry(k, v)] + Without(s, k))
  {
    WithoutIsShorter(s, k);
    WithoutKeepsDistinct(s, k);
  }

  lemma InsertKeepsBounded<K, V>(s: seq<Entry<K, V>>, cap: nat, k: K, v: V)
    requires Bounded(s, cap)
    ensures Bounded(Insert(s, cap, k, v), cap)
  {
    FrontKeepsDistinct(s, k, v);
  }

  lemma TouchKeepsBounded<K, V>(s: seq<Entry<K, V>>, cap: nat, k: K)
    requires Bounded(s, cap)
    ensures Bounded(Touch(s, k), cap)
  {
    if Lookup(s, k).Some? {
      FrontKeepsDistinct(s, k, Lookup(s, k).value);
      WithoutIsShorter(s, k);
    }
  }

  // ----- Recency: what survives an insertion -----

  lemma {:induction false} WithoutOther<K, V>(s: seq<Entry<K, V>>, k: K, x: K)
    requires x != k
    ensures Lookup(Without(s, k), x) == Lookup(s, x)
    ensures Lookup(s, x).Some? ==> Ahead(Without(s, k), x) == Ahead(s, x) - {k}
  {
    if s != [] {
      WithoutOther(s[1..], k, x);
    }
  }

  /** The position of k, or the length when absent. */
  function Position<K(==), V>(s: seq<Entry<K, V>>, k: K): nat {
    if s == [] || s[0].key == k then 0 else 1 + Position(s[1..], k)
  }

  lemma {:induction false} AheadComesFirst<K, V>(s: seq<Entry<K, V>>, k: K, y: K) returns (i: nat)
    requires y in Ahead(s, k)
    ensures i < |s| && i < Position(s, k) && s[i].key == y
  {
    i := 0;
    if s[0].key != y {
      var m := AheadComesFirst(s[1..], k, y);
      i := m + 1;
    }
  }

  lemma {:induction false} AheadCountsPosition<K, V>(s: seq<Entry<K, V>>, k: K)
    requires DistinctKeys(s)
    ensures |Ahead(s, k)| == Position(s, k)
  {
    if s != [] && s[0].key != k {
      AheadCountsPosition(s[1..], k);
      if s[0].key in Ahead(s[1..], k) {
        var i := AheadComesFirst(s[1..], k, s[0].key);
      }
    }
  }

  lemma {:induction false} TakeByPosition<K, V>(s: seq<Entry<K, V>>, n: nat, k: K)
    ensures Lookup(Take(s, n), k) == if Position(s, k) < n then Lookup(s, k) else None
    ensures Position(s, k) < n ==> Ahead(Take(s, n), k) == Ahead(s, k)
    ensures Lookup(s, k).Some? <==> Position(s, k) < |s|
  {
    if s != [] {
      if n > 0 {
        TakeByPosition(s[1..], n - 1, k);
        assert Take(s, n)[1..] == Take(s[1..], n - 1);
      } else {
        TakeByPosition(s[1..], 0, k);
      }
    }
  }

  /** Adding one key keeps another if and only if, counting the added one, fewer than cap
      distinct keys are now more recent; a kept entry keeps its value. */
  lemma InsertKeepsOtherIff<K, V>(s: seq<Entry<K, V>>, cap: nat, k: K, v: V, x: K)
    requires Bounded(s, cap) && x != k
    ensures var s' := Insert(s, cap, k, v);
            && Lookup(s', x) == (if Lookup(s, x).Some? && |Ahead(s, x) + {k}| < cap then Lookup(s, x) else None)
            && (Lookup(s', x).Some? ==> Ahead(s', x) == Ahead(s, x) + {k})
  {
    var all := [Entry(k, v)] + Without(s, k);
    WithoutOther(s, k, x);
    assert all[1..] == Without(s, k);
    FrontKeepsDistinct(s, k, v);
    assert Lookup(s, x).Some? ==> Ahead(all, x) == Ahead(s, x) + {k};
    TakeByPosition(all, cap, x);
    AheadCountsPosition(all, x);
  }

  lemma InsertStores<K, V>(s: seq<Entry<K, V>>, cap: nat, k: K, v: V)
    requires 1 <= cap
    ensures Lookup(Insert(s, cap, k, v), k) == Some(v) && Ahead(Insert(s, cap, k, v), k) == {}
  {
  }

  /** A lookup of another key evicts nothing; a hit puts just that key in front. */
  lemma TouchKeepsOther<K, V>(s: seq<Entry<K, V>>, k: K, x: K)
    requires x != k
    ensures Lookup(Touch(s, k), x) == Lookup(s, x)
    ensures Lookup(s, x).Some? ==> Ahead(Touch(s, k), x) == Ahead(s, x) + if Lookup(s, k).Some? then {k} else {}
  {
    WithoutOther(s, k, x);
    if Lookup(s, k).Some? {
      assert Touch(s, k)[1..] == Without(s, k);
    }
  }

  /** Adding a key conditionally and then unconditionally is one plain Add, in contents,
      order and evictions, whether or not the first lookup counts as a use. */
  lemma InsertTwiceIsInsert<K, V>(s: seq<Entry<K, V>>, cap: nat, k: K, v: V, touches: bool)
    requires 1 <= cap && Bounded(s, cap)
    ensures var seen := if touches then Touch(s, k) else s;
            var first := if Lookup(s, k).Some? then seen else Insert(seen, cap, k, v);
            Insert(first, cap, k, v) == Insert(s, cap, k, v)
  {
    var w := Without(s, k);
    WithoutFacts(s, k);
    WithoutFacts(w, k);
    LookupIsHasKey(s, k);
    if Lookup(s, k).Some? {
      if touches {
        assert Touch(s, k)[1..] == w;
      }
    } else {
      var first := Insert(s, cap, k, v);
      assert first[0].key == k && first[1..] == Take(w, cap - 1);
      WithoutFacts(first[1..], k);
      assert !HasKey(first[1..], k);
      assert Without(first, k) == Take(w, cap - 1);
    }
  }

  // ----- The array implementation -----

  /** Cells 0 to n - 1 move up by one and e is written in front. */
  method PushFront<T>(cells: array<T>, n: nat, e: T)
    requires n < cells.Length
    modifies cells
    ensures cells[..] == [e] + old(cells[..])[..n] + old(cells[..])[n + 1..]
  {
    ghost var was := cells[..];
    var j := n;
    while j > 0
      invariant 0 <= j <= n
      invariant forall k :: 0 <= k <= j ==> cells[k] == was[k]
      invariant forall k :: j < k <= n ==> cells[k] == was[k - 1]
      invariant forall k :: n < k < cells.Length ==> cells[k] == was[k]
    {
      cells[j] := cells[j - 1];
      j := j - 1;
    }
    cells[0] := e;
  }

  /** Cells i + 1 to n - 1 move down by one. */
  method CloseGap<T>(cells: array<T>, i: nat, n: nat)
    requires i < n <= cells.Length
    modifies cells
    ensures cells[..n - 1] == old(cells[..n])[..i] + old(cells[..n])[i + 1..]
  {
    ghost var was := cells[..n];
    var j := i;
    while j + 1 < n
      invariant i <= j < n
      invariant forall k :: 0 <= k < i ==> cells[k] == was[k]
      invariant forall k :: i <= k < j ==> cells[k] == was[k + 1]
      invariant forall k :: j < k < n ==> cells[k] == was[k]
    {
      cells[j] := cells[j + 1];
      j := j + 1;
    }
  }

  /** The first n cells after pushing e in front, when the cell at i was the one given up. */
  lemma FrontPart<T>(cells: seq<T>, i: nat, n: nat, e: T)
    requires i < n <= |cells|
    ensures ([e] + cells[..i] + cells[i + 1..])[..n] == [e] + (cells[..i] + cells[i + 1..n])
  {
  }

  class Cache<K(==, !new, 0), V(0)> {
    const slots: array<Entry<K, V>>
    var count: nat

    ghost predicate Valid()
      reads this, slots
    {
      1 <= slots.Length && count <= slots.Length && DistinctKeys(slots[..count])
    }

    /** The entries, most recently used first. */
    ghost function Contents(): seq<Entry<K, V>>
      requires Valid()
      reads this, slots
    {
      slots[..count]
    }

    constructor (cap: nat)
      requires 1 <= cap
      ensures Valid() && fresh(slots) && slots.Length == cap && Contents() == []
    {
      slots := new Entry<K, V>[cap];
      count := 0;
    }

    method Find(k: K) returns (i: nat)
      requires Valid()
      ensures i <= count && (forall j :: 0 <= j < i ==> slots[j].key != k) && (i < count ==> slots[i].key == k)
    {
      i := 0;
      while i < count && slots[i].key != k
        invariant i <= count && forall j :: 0 <= j < i ==> slots[j].key != k
      {
        i := i + 1;
      }
    }

    method RGet(k: K) returns (r: Option<V>)
      requires Valid()
      ensures r == Lookup(Contents(), k)
    {
      var i := Find(k);
      SplitLookup(slots[..count], i, k);
      r := if i < count then Some(slots[i].value) else None;
    }

    method Get(k: K) returns (r: Option<V>)
      requires Valid()
      modifies slots
      ensures Valid() && count == old(count)
      ensures r == Lookup(old(Contents()), k)
      ensures Contents() == Touch(old(Contents()), k)
    {
      ghost var s := Contents();
      var i := Find(k);
      SplitLookup(s, i, k);
      if i == count {
        return None;
      }
      r := Some(slots[i].value);
      TouchKeepsBounded(s, slots.Length, k);
      FrontPart(slots[..], i, count, slots[i]);
      assert slots[..][..i] + slots[..][i + 1..count] == s[..i] + s[i + 1..];
      PushFront(slots, i, slots[i]);
      assert slots[..count] == slots[..][..count] == Touch(s, k);
    }

    method Add(k: K, v: V)
      requires Valid()
      modifies this, slots
      ensures Valid()
      ensures Contents() == Insert(old(Contents()), slots.Length, k, v)
    {
      ghost var s := Contents();
      var i := Find(k);
      SplitLookup(s, i, k);
      InsertKeepsBounded(s, slots.Length, k, v);
      InsertAt(s, slots.Length, i, k, v);
      if i == count {
        if count < slots.Length {
          count := count + 1;
        } else {
          i := count - 1;
        }
      }
      FrontPart(slots[..], i, count, Entry(k, v));
      assert Insert(s, slots.Length, k, v) == [Entry(k, v)] + (slots[..i] + slots[i + 1..count]);
      PushFront(slots, i, Entry(k, v));
      assert slots[..count] == slots[..][..count];
    }

    method Remove(k: K)
      requires Valid()
      modifies this, slots
      ensures Valid()
      ensures Contents() == Without(old(Contents()), k)
    {
      ghost var s := Contents();
      var i := Find(k);
      SplitLookup(s, i, k);
      WithoutKeepsDistinct(s, k);
      if i < count {
        CloseGap(slots, i, count);
        count := count - 1;
      }
    }
  }

  /** Insert when the position i of the key, or its absence, is known. */
  lemma InsertAt<K, V>(s: seq<Entry<K, V>>, cap: nat, i: nat, k: K, v: V)
    requires 1 <= cap && |s| <= cap && DistinctKeys(s) && i <= |s|
    requires (forall j :: 0 <= j < i ==> s[j].key != k) && (i < |s| ==> s[i].key == k)
    ensures Insert(s, cap, k, v)
            == [Entry(k, v)] + if i < |s| then s[..i] + s[i + 1..] else if |s| < cap then s else s[..cap - 1]
  {
    SplitLookup(s, i, k);
  }

  lemma {:induction false} WithoutAbsent<K, V>(s: seq<Entry<K, V>>, k: K)
    requires forall j :: 0 <= j < |s| ==> s[j].key != k
    ensures Without(s, k) == s && Lookup(s, k).None?
  {
    if s != [] {
      WithoutAbsent(s[1..], k);
    }
  }

  /** Lookup and Without when the position of the key is known. */
  lemma {:induction false} SplitLookup<K, V>(s: seq<Entry<K, V>>, i: nat, k: K)
    requires DistinctKeys(s) && i <= |s|
    requires (forall j :: 0 <= j < i ==> s[j].key != k) && (i < |s| ==> s[i].key == k)
    ensures Lookup(s, k) == if i < |s| then Some(s[i].value) else None
    ensures Without(s, k) == if i < |s| then s[..i] + s[i + 1..] else s
  {
    if i == |s| {
      WithoutAbsent(s, k);
    } else if i == 0 {
      WithoutAbsent(s[1..], k);
    } else {
      SplitLookup(s[1..], i - 1, k);
      assert s[..i] + s[i + 1..] == [s[0]] + (s[1..][..i - 1] + s[1..][i..]);
    }
  }
}
